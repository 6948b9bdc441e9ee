# Robdex backend, verified in Dafny

Models of four parts of the repository whose correctness is not visible from any single function, and proofs about all
their inputs, runs and interleavings. `dafny verify dfyconfig.toml` checks everything.

## What is modelled

**The QA harness runtime** (`Slot*.dfy`). Every (project, device) slot has a guard; one lock covers all slot records and
is held only inside a critical section, which rewrites a record, persists it, and publishes it after letting the lock
go. `SlotModel` has the record and the critical sections. `SlotOps` says twice what an operation does: as one atomic
whole (start is a fold over its hooks) and as program points between which others may run. `SlotProtocol` is the
interleaved system: any number of operations on any slots, with one micro-step each for guard, lock, lease check,
rewrite, persist, unlock, publish, every answer of the outside world, cancellation at an await, and crash followed by
restart. Hook results, simulator answers, clocks and process liveness are arbitrary functions. `SlotInvariant` and
`SlotSteps` prove one invariant of all steps; `SlotTheorems`, `SlotProgress` and `SlotRuns` draw the conclusions.
`SlotLifecycle` and `SlotSettling` say how single operations end, `SlotStory` what they write. `SlotRuntime` has the
code's own form, objects that update records, files and the event log, each method proved against the whole-operation
semantics.

**The privileged-exec service** (`Exec*.dfy`, `Chain*.dfy`, `Shell*.dfy`, `ScriptMeaning.dfy`, `CappedOutput.dfy`,
`Utf8.dfy`). A command is normalised to a plan, judged by a policy, and run as a chain with short-circuiting and
byte-capped output. `ShellGrammar` is an independent reference: token recognition, quoting, reserved words, assignment
words and AND-OR lists of the POSIX Shell Command Language; `ShellMeaning` adds pathname and tilde expansion and the
shell's built-in commands, and says when running the written words is what the shell does.

**The screenshot check** (`Png*.dfy`). Chunk walk, in-place scanline reconstruction against the filters of RFC 2083, and
the sampled near-white test.

**Bridge transforms** (`MergeDelta.dfy`, `CachePrune.dfy`, `HookPath.dfy`). Streaming text merge over UTF-8 bytes, cache
pruning, and lexical resolution of hook paths. `KeyOrder.dfy` has the order in which sorted maps are visited.

## Where the code does less than one might expect

- A failed hook does not stop `start`: it comes back as a record, so the later hooks run and the last one decides. Ready
  does not mean that every hook succeeded (`SlotSettling.StartEndsAsLastHookSays`).
- An operation can end and leave its slot under way (BootingSimulator, Preparing, StartingRuntime): after a boot error, a
  failed second look at the simulator, or a refused directory (`SlotSettling.UnderWayExactly` says exactly when), and when
  the request is cancelled at its hook (`SlotRuns.CancelledHookLeavesUnderWay`). It stays under way through lease
  operations, strangers, and operations that end before their first write (`SlotRuns.SlotLeftExactly`); a restart of the
  process settles it (`SlotTheorems.CrashSafe`).
- The service starts the words of a script as they are written. `rg *.rs && make` hands `*.rs` to rg, where the shell hands
  over the matching names, and `cd` is started as a program, where the shell changes its own directory. The documentation
  (`skills/privileged-exec/SKILL.md`) tells users to keep expansions out; nothing refuses these
  (`ScriptMeaning.WildcardRunsDifferently`, with the exact condition in `ScriptMeaning.PlanMeansScript`).
- A command that cannot be started ends a chain with an error, where the shell goes on with status 127
  (`ChainExec.ChainIsAndOrList` says exactly when the two agree).
- The operator scanner does not know backslashes (`ChainScan.ScannerReadsWhatItSees`). An escaped operator is harmless in a
  list of && and ||, which is then refused (`ChainScan.ScannerAgreesWithGrammar`), but can make a list of something else
  (`ChainScan.EscapedOperatorMakesList`). An escaped quote shifts what the scanner takes for quoted, and the plan can get
  another operator than the script (`ScriptMeaning.EscapedQuoteRunsDifferently`).
- Merged chain output need not be a prefix of everything written (`CappedOutput.MergeNeedNotBePrefix`, with the exact
  condition in `CappedOutput.MergeIsPrefixExactly`).
- The text of a single command can be longer than the cap, because decoding replaces malformed bytes
  (`CappedOutput.DecodedTextMayExceedCap`).
- A printed vector that begins with a reserved word or NAME=value of plain characters is not a simple command
  (`ShellQuoting.PrintedNeedNotBeCommand`, exactly when in `ShellQuoting.PrintedIsCommand`).
- From 100000 pixels on, the blank test skips pixels, and an image that is not white can pass
  (`PngBlank.SampledIsFullExactly`).
- Normalising a relative path forgets leading double dots (`HookPath.NormalizingKeepsMeaning`), and an absolute hook path
  is neither normalised nor checked (`HookPath.ResolveHookPath`).
- A delta whose start happens to equal the end of the text is not appended in full
  (`MergeDelta.AppendedUnlessOverlapping`, and for whole streams `MergeDelta.PiecesConcatenateExactly`).

## Model

| member | source | states |
|---|---|---|
| SlotSteps.StartupInv | backend/crates/codex-qa-harness/src/runtime.rs:41-72 | loading any state files the harness itself left, then reconciling, establishes the invariant of the concurrent protocol (one guard holder, one lock holder, legal records, memory, files, event log and serial history agree per slot) |
| SlotSteps.StepKeepsInv | backend/crates/codex-qa-harness/src/runtime.rs:119-162 | every micro-step of every operation (guard, lock, check, rewrite, persist, unlock, publish, answer of the outside world, cancellation, crash and reboot) keeps that invariant, for any number of slots and operations |
| SlotSteps.RunKeepsInv | backend/crates/codex-qa-harness/src/runtime.rs:119-253 | so it holds in every reachable world |
| SlotSteps.WriteLegal | backend/crates/codex-qa-harness/src/runtime.rs:386-594 | a critical section turns a legal record into a legal one of the same slot, and takes the owner away only in a release |
| SlotTheorems.RecordsStayLegal | backend/crates/codex-qa-harness/src/runtime.rs:386-649 | in every reachable world every record, in memory and on disk, is in one of the listed (status, phase) pairs, is Failed exactly when it has an error, and is Ready only with a ready time |
| SlotTheorems.Serialisable | backend/crates/codex-qa-harness/src/runtime.rs:119-253 | for every interleaving: once nothing is in flight and nothing was cancelled, the slots map equals whole operations run one after the other in the order in which the guards were granted |
| SlotTheorems.SerialMapAt | backend/crates/codex-qa-harness/src/runtime.rs:285-384 | the whole-map serial reference and the per-slot one agree on every slot |
| SlotTheorems.SlotIsSerial | backend/crates/codex-qa-harness/src/runtime.rs:285-384 | at any moment, cancelled operations included, a record is its operations one after the other, each cut after the sections it completed; everyone who finished got the answer of its serial run |
| SlotTheorems.EventsFollowFiles | backend/crates/codex-qa-harness/src/runtime.rs:143-160 | per slot the published events are the persisted records, same values and order, never more than one behind; with the guard free they are equal and are the serial history |
| SlotTheorems.FilesAgreeWithMemory | backend/crates/codex-qa-harness/src/state.rs:45-85 | whenever the lock over the records is free, loading the files gives memory back, up to the timestamp of slots never written |
| SlotTheorems.CrashSafe | backend/crates/codex-qa-harness/src/runtime.rs:605-649 | after a crash at any micro-step, load and reconcile leave every slot as a restart leaves the record last persisted (SlotModel.ReconciledIsRestarted); so it is Idle, Ready or Failed, the first two only with every tracked process alive, and has the lease last persisted (the one in memory if the lock was free) |
| SlotTheorems.StartupLeaves | backend/crates/codex-qa-harness/src/state.rs:45-74 | startup from any files: every configured slot has the restarted record of its file, in memory and on disk, or the default record of its device with no file written; other files stay and nothing is published |
| SlotModel.ReconciledIsRestarted | backend/crates/codex-qa-harness/src/runtime.rs:605-649 | field by field: the first dead tracked process makes the record Failed without a phase, with tracked_process_missing and that process in the message; else the six statuses of an interrupted operation become Failed in their old phase with interrupted_runtime; else nothing changes; lease, artifacts, processes, last ready time and identity stay in every case |
| SlotModel.DecimalReads | backend/crates/codex-qa-harness/src/runtime.rs:624-628 | the pid in the message of a dead process reads back as that pid, in decimal and without leading zeros |
| SlotTheorems.ReconciledTwice | backend/crates/codex-qa-harness/src/runtime.rs:605-649 | reconciling again changes nothing but the timestamp |
| SlotTheorems.RecoveryCanBeRepeated | backend/crates/codex-qa-harness/src/runtime.rs:605-649 | a startup that dies after rewriting any subset of the slots, followed by a full one, ends like one full startup |
| SlotTheorems.SeenStaysLong | backend/crates/codex-qa-harness/src/runtime.rs:386-430 | the lease record an operation first saw stays with it until it ends |
| SlotTheorems.LeaseStable | backend/crates/codex-qa-harness/src/runtime.rs:480-506 | from its first successful check until it gives the guard back, an operation finds that very lease record in its slot, with itself as owner, so none of its later checks refuses it |
| SlotTheorems.OwnerChangesByRelease | backend/crates/codex-qa-harness/src/runtime.rs:119-162 | in any run without a crash the owner of a slot goes away or changes only through a release of that slot |
| SlotTheorems.PersistedOwnerChangesByRelease | backend/crates/codex-qa-harness/src/runtime.rs:119-162 | the same for the owner in the state file, across crashes and restarts |
| SlotProgress.NoDeadlock | backend/crates/codex-qa-harness/src/runtime.rs:285-295 | while any operation is in flight some operation has a step it can take: slot guards and the lock over the records never block each other for good |
| SlotProgress.OperationsEnd | backend/crates/codex-qa-harness/src/runtime.rs:297-478 | whatever the interleaving, the steps an operation takes are bounded by a measure of the program points it has left |
| SlotOps.WritePeelsRest | backend/crates/codex-qa-harness/src/runtime.rs:432-478 | one critical section peels exactly one write off what the rest of the operation does when it runs alone |
| SlotLifecycle.HooksOutcome | backend/crates/codex-qa-harness/src/runtime.rs:432-478 | the hook sequence ends early only where a directory cannot be made; otherwise every hook runs, a failed one too, and the last reply alone decides status, error and (replaced) processes |
| SlotSettling.StartEndsAsLastHookSays | backend/crates/codex-qa-harness/src/runtime.rs:297-384 | for the lease owner, whatever state the slot is in: start returns a record exactly when the simulator is or gets booted and every directory is granted; the record is Ready exactly when the readiness hook succeeds, whatever the hooks before it answered, else Failed; restart is the same |
| SlotSettling.UnderWayExactly | backend/crates/codex-qa-harness/src/runtime.rs:386-478 | for every request, record and all answers: whether the record is left under way, and whose lease it has, is a function of the same two facts before and of the answers of the outside world; so the lease owner leaves it under way exactly after a failed boot, a failed second look at the simulator, a directory refused right after the boot or after a hook that succeeded, or when nothing was written to a record already under way |
| SlotRuns.SlotLeftExactly | backend/crates/codex-qa-harness/src/runtime.rs:119-253 | over whole runs: in every reachable world, a slot whose guard is free and none of whose operations was cancelled is under way, and leased, exactly as folding those two facts over its operations says, in the order in which they got the guard |
| SlotRuns.CancelledHookLeavesUnderWay | backend/crates/codex-qa-harness/src/runtime.rs:432-478 | in any run, a request cancelled while its hook runs or before its reply is applied gives the guard back and leaves the record under way |
| SlotRuns.CancelledWhereAwaiting | backend/crates/codex-qa-harness/src/runtime.rs:285-295 | a request can be cancelled exactly where the code awaits the lock over the records or a hook; it then gives its guard back, and records, files and events are as they were |
| SlotLifecycle.ReturnsWhatItPublished | backend/crates/codex-qa-harness/src/runtime.rs:119-253 | an operation that returns a record returns the one it persisted and published last |
| SlotLifecycle.StrangersWriteNothing | backend/crates/codex-qa-harness/src/runtime.rs:597-603 | start, restart, teardown and command by anyone but the lease owner write nothing and fail |
| SlotStory.OwnerStory | backend/crates/codex-qa-harness/src/runtime.rs:189-384 | for the lease owner, write by write and field by field, whatever the outside world answers: start and restart boot the simulator if need be, then run prepare_source, start_dependencies exactly if the project has it, start_runtime and check_readiness with their statuses and phases, teardown runs its hook and ends Idle, command its hook and ends Ready; each hook writes its phase and then its result, a failed one does not stop the others, a directory that cannot be made does |
| SlotStory.StrangerStory | backend/crates/codex-qa-harness/src/runtime.rs:597-603 | what anyone but the owner is told by start, restart, teardown and command, and after which failures of the simulator or the directories instead |
| SlotStory.LeaseStory | backend/crates/codex-qa-harness/src/runtime.rs:119-162 | field by field: acquiring is refused with the name of another owner, else it writes and returns the record with the new lease, its reason, time and expiry, and nothing else changed but the timestamp; releasing removes the lease only |
| SlotRuntime.OperationWritesOneFile | backend/crates/codex-qa-harness/src/state.rs:76-85 | a whole operation writes one file, the one its record names, and leaves its last write there |
| SlotRuntime.HarnessRuntime.Rewrite | backend/crates/codex-qa-harness/src/runtime.rs:497-508 | the tail of every critical section: the record in memory, the file that the record names, and the event log take the new record, and nothing else changes |
| SlotRuntime.StateStore.LoadSlotStates | backend/crates/codex-qa-harness/src/state.rs:45-74 | exactly the configured devices of all projects, each with the record of its file or the default record with its device id and runtime directory |
| SlotRuntime.ReconcileSlotProcesses | backend/crates/codex-qa-harness/src/runtime.rs:605-649 | every record becomes what a restart makes of it (SlotModel.ReconciledIsRestarted), in the order of the sorted map; each file named by records that had to change holds the last of them in that order, every other file is as it was |
| SlotRuntime.LoadThenReconcile | backend/crates/codex-qa-harness/src/runtime.rs:41-72 | loading and reconciling is the startup step of the protocol |
| SlotRuntime.EnsureLeaseOwner | backend/crates/codex-qa-harness/src/runtime.rs:597-603 | lets exactly the owner of the lease pass; otherwise there is no lease, or its owner is named |
| SlotRuntime.HarnessRuntime.FromParts | backend/crates/codex-qa-harness/src/runtime.rs:41-72 | from any state files: the records of the startup step of the protocol, an empty log, and the files rewritten under the names in the records, which are the files of the startup step when every file holds the record of its own slot |
| SlotRuntime.HarnessRuntime.AcquireLease | backend/crates/codex-qa-harness/src/runtime.rs:119-149 | records, files, events and answer are those of the whole-operation semantics; nothing happens for an unknown device |
| SlotRuntime.HarnessRuntime.ReleaseLease | backend/crates/codex-qa-harness/src/runtime.rs:151-162 | the same for release, which asks for no owner |
| SlotRuntime.HarnessRuntime.Start | backend/crates/codex-qa-harness/src/runtime.rs:169-177 | records, files, events and answer are those of the whole-operation semantics of start, which SlotStory.OwnerStory and StrangerStory spell out |
| SlotRuntime.HarnessRuntime.Restart | backend/crates/codex-qa-harness/src/runtime.rs:179-187 | the same for restart |
| SlotRuntime.HarnessRuntime.Teardown | backend/crates/codex-qa-harness/src/runtime.rs:189-214 | the same for teardown |
| SlotRuntime.HarnessRuntime.Command | backend/crates/codex-qa-harness/src/runtime.rs:216-253 | the same for command |
| SlotRuntime.HarnessRuntime.EnsureSimulatorReady | backend/crates/codex-qa-harness/src/runtime.rs:386-430 | boot part of an operation: together with the hooks from where it hands over it is the whole-operation semantics |
| SlotRuntime.HarnessRuntime.RunStartSequence | backend/crates/codex-qa-harness/src/runtime.rs:297-384 | the unrolled hook calls are the whole-operation semantics of start, hooks in the order of SlotStory.OwnerStory |
| SlotRuntime.HarnessRuntime.RunHookForSlot | backend/crates/codex-qa-harness/src/runtime.rs:432-478 | one hook is the one-hook sequence: prepare, run, apply; a failed hook comes back as a record |
| SlotRuntime.HarnessRuntime.PrepareSlotForHook | backend/crates/codex-qa-harness/src/runtime.rs:480-508 | refused exactly when a directory cannot be made or the caller does not hold the lease; else the record enters its phase, persisted and published |
| SlotRuntime.HarnessRuntime.ApplyHookSuccess | backend/crates/codex-qa-harness/src/runtime.rs:534-571 | artifacts merged, processes replaced, phase cleared and ready time set only for Ready |
| SlotRuntime.HarnessRuntime.ApplyHookFailure | backend/crates/codex-qa-harness/src/runtime.rs:573-594 | Failed with the error of the hook, persisted and published |
| ShellQuoting.JoinRoundTrip | backend/crates/codex-privileged-exec-http/src/main.rs:998-1016 | quoting round trip: tokenising a printed argument vector and removing the quotes (sections 2.2.2, 2.2.3 and 2.3 of the POSIX Shell Command Language) gives it back, for arbitrary strings, and no word of it expands |
| ShellQuoting.EscapeExactly | backend/crates/codex-privileged-exec-http/src/main.rs:1005-1016 | an argument is left as it is exactly if it is not empty and has only letters, digits and / _ - . : = in it; else it is put between single quotes |
| ShellQuoting.QuotesOneByOne | backend/crates/codex-privileged-exec-http/src/main.rs:1015 | between the quotes each single quote, wherever it stands, is written as the same five characters, and everything else as it is |
| ShellQuoting.PrintedIsCommand | backend/crates/codex-privileged-exec-http/src/main.rs:1005-1016 | a printed vector is a simple command exactly unless it begins with a reserved word or an assignment of plain characters, which shell_escape leaves unquoted |
| ShellQuoting.PrintedNeedNotBeCommand | backend/crates/codex-privileged-exec-http/src/main.rs:998-1016 | two such vectors: if alone, and A=1 before x |
| ShellQuoting.ChainRoundTrip | backend/crates/codex-privileged-exec-http/src/main.rs:998-1016 | the same for printed commands joined with && and || |
| ChainScan.ShellChainOperators | backend/crates/codex-privileged-exec-http/src/main.rs:572-608 | the one-pass scanner computes the reference scan |
| ChainScan.ScannerReadsWhatItSees | backend/crates/codex-privileged-exec-http/src/main.rs:572-608 | for every script, readable or not: the scanner finds the operators of the list that the grammar reads once backslashes and whatever else the scanner does not know are made letters and an open quote is closed, and refuses exactly if that is no list of && and || only |
| ChainScan.ScannerAgreesWithGrammar | backend/crates/codex-privileged-exec-http/src/main.rs:572-608 | for every script the grammar reads: the scanner finds its list operators exactly if they are those of what it sees; with no quote escaped that is so on every script without an escaped operator, and on a script with && and || only exactly if no operator is escaped or split over lines, and else it refuses |
| ChainScan.PrinterRoundTrip | backend/crates/codex-privileged-exec-http/src/main.rs:572-608 | the scanner inverts the printer: printed commands joined with any operators give back exactly those operators, whatever the arguments hold |
| ChainScan.EscapedOperatorMakesList | backend/crates/codex-privileged-exec-http/src/main.rs:572-608 | why escaped operators matter: a script with a single & in which the scanner finds an && |
| ChainScan.EscapedQuoteSwapsOperators | backend/crates/codex-privileged-exec-http/src/main.rs:572-608 | why escaped quotes matter: a script with one || in which the scanner finds one && |
| ExecPolicy.EvaluateNormalizedWithPolicy | backend/crates/codex-privileged-exec-http/src/main.rs:632-676 | the loop with its three flags is the fold of the join Forbidden > Prompt > no match > Allow; the rules it reports are the matches of each command in a block of their own, in order and nothing else |
| ExecPolicy.EvaluateNormalized | backend/crates/codex-privileged-exec-http/src/main.rs:617-630 | nothing to judge gives no decision and no rules; Allow comes with at least one rule for every command |
| ExecPolicy.DecisionMeaning | backend/crates/codex-privileged-exec-http/src/main.rs:632-676 | Forbidden exactly when some command draws a Forbidden rule, Prompt exactly when one draws Prompt and none Forbidden, Allow exactly when every command has a match and only Allow matches |
| ExecPolicy.DecisionIsHomomorphic | backend/crates/codex-privileged-exec-http/src/main.rs:632-676 | the decision on a concatenation is the join of the decisions |
| ExecPolicy.MatchesConcatenate | backend/crates/codex-privileged-exec-http/src/main.rs:632-676 | and its matches are the matches of the one followed by those of the other |
| ExecPolicy.MatchesInBlocks | backend/crates/codex-privileged-exec-http/src/main.rs:644-661 | the matches of command i stand together behind those of the commands before it, and there are no others |
| ExecPolicy.BlocksDecide | backend/crates/codex-privileged-exec-http/src/main.rs:644-661 | only one list of rules has these blocks |
| ExecPolicy.DecisionIgnoresOrder | backend/crates/codex-privileged-exec-http/src/main.rs:632-676 | order and repetition of the commands do not matter |
| ExecService.PolicySeesThePlan | backend/crates/codex-privileged-exec-http/src/main.rs:486-570 | what may run is what the policy is asked about, command for command: the command itself, or the commands of its script |
| ExecService.NormalizesExactly | backend/crates/codex-privileged-exec-http/src/main.rs:486-570 | every case of normalisation: an empty command or an unparsable script has no plan and nothing to judge, a plain vector and a single parsed command are planned and judged as they are, several commands are all judged, and planned with the operators that the scanner sees if there is one between any two |
| ExecService.AdmittedExactly | backend/crates/codex-privileged-exec-http/src/main.rs:257-278 | who gets in, without the plan: a single command, plain or all of a script, exactly if it is cleared; several exactly if the scanner sees one && or || between any two and all are cleared; an empty command or an unparsable script never |
| ScriptMeaning.PlanOfScript | backend/crates/codex-privileged-exec-http/src/main.rs:486-570 | a single command has a plan; a list of several has one exactly if the scanner sees as many operators as it has, and with those; with no quote escaped they are those of the list, and there is no plan exactly if one is escaped or split |
| ScriptMeaning.OnlyAndOrListsHavePlans | backend/crates/codex-privileged-exec-http/src/main.rs:520-560 | a script of several commands, whatever it is, has a plan exactly if the scanner sees nothing but && and ||, one between any two; of the ones the grammar reads with no quote escaped these are exactly those with nothing but unescaped && and || between the commands |
| ScriptMeaning.SingleIsChainOfOne | backend/crates/codex-privileged-exec-http/src/main.rs:851-860 | a single command is run like a chain of one |
| ScriptMeaning.PlanMeansScript | backend/crates/codex-privileged-exec-http/src/main.rs:486-570 | meaning from script to execution: running the plan is what the shell does with the script, in every world and whatever patterns match there and built-in commands do, exactly when the scanner sees the operators of the script, no word has a bare pattern or tilde and no command is built into the shell |
| ScriptMeaning.PlanRunsAsShell | backend/crates/codex-privileged-exec-http/src/main.rs:486-570 | when so, for worlds of any kind |
| ScriptMeaning.WildcardRunsDifferently | backend/crates/codex-privileged-exec-http/src/main.rs:486-570 | the input that shows it: rg *.rs && make has a plan that hands over the pattern, and in some world the shell starts something else |
| ScriptMeaning.EscapedQuoteRunsDifferently | backend/crates/codex-privileged-exec-http/src/main.rs:520-560 | with an escaped quote the plan can have another operator than the script and start a command that the shell does not |
| ShellMeaning.ChainMeansListExactly | backend/crates/codex-privileged-exec-http/src/main.rs:851-883 | the same equivalence for the chain loop and any AND-OR list, the operators of the chain being any |
| ScriptMeaning.PrintedChainNormalizes | backend/crates/codex-privileged-exec-http/src/main.rs:486-570 | a chain printed by the service comes back from normalisation as itself |
| ExecService.AllowMeansAdmitted | backend/crates/codex-privileged-exec-http/src/main.rs:257-278 | Allow for a command with a plan means that every command of the plan has a match and only Allow matches, and that there is one |
| ExecService.PolicyCheck | backend/crates/codex-privileged-exec-http/src/main.rs:257-278 | eligible exactly when admitted; a single command exactly when it is cleared |
| ExecService.ExecRun | backend/crates/codex-privileged-exec-http/src/main.rs:280-372 | end-to-end gate: without bypass it executes exactly the admitted requests, what it starts was put before the policy, matched, and matched only Allow; what it executes is the plan; otherwise nothing runs. A single command is executed exactly if bypass is on or it is cleared, and then it and nothing else is started |
| ChainExec.ExecutePlan | backend/crates/codex-privileged-exec-http/src/main.rs:851-883 | the loop with previous_exit_code and the merged capture is the recursive run of the plan, launch errors included |
| ChainExec.ChainIsAndOrList | backend/crates/codex-privileged-exec-http/src/main.rs:851-883 | against section 2.9.3, for commands that stand for their argument vectors: same commands, order, worlds, status and outputs as the left-associative AND-OR list, exactly as long as every command the shell would run can be started; at the first that cannot the chain stops |
| ChainExec.PreviousIsLast | backend/crates/codex-privileged-exec-http/src/main.rs:851-883 | the exit code the loop tests is that of the last command that ran |
| ChainExec.MergedExit | backend/crates/codex-privileged-exec-http/src/main.rs:801-839 | and it is the exit code of the merged result, which says timed out exactly if some command did |
| ChainExec.ChainOutputIsLosslessOrFlagged | backend/crates/codex-privileged-exec-http/src/main.rs:801-839 | both streams of a chain stay under the cap; a stream is unflagged exactly when no step was flagged and the steps fit together, and then it is their exact concatenation |
| CappedOutput.CapturedOutput.Push | backend/crates/codex-privileged-exec-http/src/main.rs:801-819 | one push appends both streams under the cap and keeps every flag |
| CappedOutput.AppendCapped | backend/crates/codex-privileged-exec-http/src/main.rs:821-839 | the backwards search ends at the last character boundary that fits; flagged exactly when something is cut |
| CappedOutput.AppendedIsSound | backend/crates/codex-privileged-exec-http/src/main.rs:821-839 | the result is valid UTF-8 under the cap and a cut wastes at most three bytes |
| CappedOutput.MergedIsLosslessOrFlagged | backend/crates/codex-privileged-exec-http/src/main.rs:801-839 | for any sequence of captures: flagged exactly when a part was or the parts exceed the cap, else the exact concatenation; all cuts together waste at most three bytes |
| CappedOutput.MergeIsPrefixExactly | backend/crates/codex-privileged-exec-http/src/main.rs:821-839 | the merge is a prefix of everything written exactly when no chunk after the cap has been exceeded still fits with its first character into the room that cutting everything before it leaves |
| CappedOutput.AsciiMergeIsPrefix | backend/crates/codex-privileged-exec-http/src/main.rs:821-839 | for ASCII output this is always so, and the merge is the longest prefix under the cap |
| CappedOutput.MergeNeedNotBePrefix | backend/crates/codex-privileged-exec-http/src/main.rs:821-839 | in general it is not: two captures after whose cut a later one still fits |
| CappedOutput.ReadStreamCapped | backend/crates/codex-privileged-exec-http/src/main.rs:960-989 | however a stream is split into reads of 1 to 8192 bytes, the text is the decoding of its first max bytes, those very bytes exactly when they are well-formed, and the flag says whether there were more |
| Utf8.LossyIsText | backend/crates/codex-privileged-exec-http/src/main.rs:988 | decoding always gives valid text, at most three times as long as the bytes |
| CappedOutput.DecodedTextMayExceedCap | backend/crates/codex-privileged-exec-http/src/main.rs:960-989 | the decoded text of one command can be longer than the cap: one malformed byte becomes three |
| Utf8.BoundarySplits | backend/crates/codex-privileged-exec-http/src/main.rs:834-837 | is_char_boundary holds exactly where cutting valid text leaves valid text |
| Utf8.CharLenExactly | backend/crates/codex-privileged-exec-http/src/main.rs:834-837 | the characters of valid text are exactly the encodings of scalar values by section 3 of RFC 3629, with their lengths |
| Utf8.BadLenExactly | backend/crates/codex-privileged-exec-http/src/main.rs:988 | where no character begins, one U+FFFD stands for as many bytes as could have begun one, and for at least one |
| Utf8.LossyStep | backend/crates/codex-privileged-exec-http/src/main.rs:988 | decoding copies characters and writes U+FFFD for the others |
| PngFilters.PaethIsNearest | skills/design-worker/scripts/design_lab_capture.py:333-342 | section 6.6 of RFC 2083: the only one of left, above and upper left that is nearest to their estimate, ties in that order |
| PngFilters.ReconstructsByte | skills/design-worker/scripts/design_lab_capture.py:314-330 | what reconstruction makes of every byte, filter by filter, as five equations on the bytes left, above and upper left of it |
| PngFilters.FiltersByte | skills/design-worker/scripts/design_lab_capture.py:314-330 | the five filters of section 6 of RFC 2083 as equations on every byte |
| PngFilters.UnfilterScanline | skills/design-worker/scripts/design_lab_capture.py:314-330 | in place, left to right, the scanline becomes the reconstruction of its old bytes; refused exactly for an unknown filter on a non-empty line, and then nothing has changed |
| PngFilters.UnfilterInverts | skills/design-worker/scripts/design_lab_capture.py:314-330 | reconstruction inverts the filtering of section 6 of RFC 2083, for every filter, pixel width and row above |
| PngFilters.FilterInverts | skills/design-worker/scripts/design_lab_capture.py:314-330 | and filtering inverts reconstruction |
| PngReader.ReadRows | skills/design-worker/scripts/design_lab_capture.py:299-311 | the loop with its offset and two row buffers is the recursive decoding, short data included |
| PngReader.RowsRoundTrip | skills/design-worker/scripts/design_lab_capture.py:299-311 | for any rows and any filter chosen per row the row loop recovers the bytes; what follows the last row does not matter |
| PngReader.DecodedSize | skills/design-worker/scripts/design_lab_capture.py:299-311 | a decoded image has all its bytes unless the data ends within its last row, and then exactly the bytes there are |
| PngReader.EveryRow | skills/design-worker/scripts/design_lab_capture.py:299-311 | every row of a decoded image is the reconstruction of its scanline by its own filter byte against the row before it |
| PngReader.RowsAreRefused | skills/design-worker/scripts/design_lab_capture.py:299-311 | refused exactly when some row has no filter byte, or an unknown one in front of a scanline |
| PngReader.ReadPngPixels | skills/design-worker/scripts/design_lab_capture.py:277-311 | the chunk walk with its position is the recursive scan of the file, with every error a refusal |
| PngReader.ChunksScanned | skills/design-worker/scripts/design_lab_capture.py:284-294 | any chunks but IEND, in front of anything: the last IHDR counts, the bodies of all IDAT chunks are joined, a short IHDR is refused |
| PngReader.EndScanned | skills/design-worker/scripts/design_lab_capture.py:284-294 | at IEND, or where the file is cut short in any chunk but IHDR, the walk ends with what there is |
| PngReader.FileIsRead | skills/design-worker/scripts/design_lab_capture.py:277-311 | for every sequence of chunks: refused exactly without a header, with a short one, another bit depth or colour type, data that does not inflate or rows that are refused; else width, height and colour type of the header with the decoded rows at 1, 3 or 4 bytes a pixel |
| PngReader.NoSignature | skills/design-worker/scripts/design_lab_capture.py:279-280 | what does not begin with the eight signature bytes is refused |
| PngReader.PngRoundTrip | skills/design-worker/scripts/design_lab_capture.py:277-311 | a file written with any supported header, rows, filters, and cut of the compressed stream into IDAT chunks among others reads back byte for byte, given a decompressor that undoes the compressor |
| PngBlank.SamplesAreAligned | skills/design-worker/scripts/design_lab_capture.py:264-271 | every sample starts at a pixel |
| PngBlank.SampleFits | skills/design-worker/scripts/design_lab_capture.py:265-267 | exactly the first SampleCount samples lie inside the data |
| PngBlank.AtMostLimit | skills/design-worker/scripts/design_lab_capture.py:264-267 | at most 100000 pixels are looked at |
| PngBlank.AtLeastHalf | skills/design-worker/scripts/design_lab_capture.py:264-267 | and of an image of 100000 pixels or more at least 50000 |
| PngBlank.SmallImagesAreReadWhole | skills/design-worker/scripts/design_lab_capture.py:264-267 | below 100000 pixels every pixel is looked at |
| PngBlank.SamplesNearWhite | skills/design-worker/scripts/design_lab_capture.py:262-274 | the sampling loop with its early exit answers whether all samples are at least 248 and spread by at most 3 |
| PngBlank.PngIsBlankWhite | skills/design-worker/scripts/design_lab_capture.py:236-274 | true exactly for images of a known colour type, at least 16 by 16, with data, whose samples are near white |
| PngBlank.SmallImageVerdict | skills/design-worker/scripts/design_lab_capture.py:262-274 | below 100000 whole pixels the sampled test is the test of every colour value of every whole pixel, also when the data ends within a pixel |
| PngBlank.BlankFileVerdict | skills/design-worker/scripts/design_lab_capture.py:236-311 | from file to verdict: a written image with sides of at least 16 is called blank if every colour value of every row is near white, and below 100000 pixels only then |
| PngBlank.WhiteImagesPass | skills/design-worker/scripts/design_lab_capture.py:262-274 | at any size an image whose every pixel is near white passes |
| PngBlank.SampledIsFullExactly | skills/design-worker/scripts/design_lab_capture.py:262-274 | for all images of a size: the sampled test is the test of every pixel exactly when there are fewer than 100000 |
| MergeDelta.MergeDeltaText | backend/crates/codex-robdex-bridge/src/transforms.rs:27-53 | trying only character boundaries, longest first, gives the merge at the longest overlap of all byte positions, which is the shortest string with the text as prefix and the delta as suffix |
| MergeDelta.MergedIsShortest | backend/crates/codex-robdex-bridge/src/transforms.rs:27-53 | no byte string, valid text or not, has both with fewer bytes |
| MergeDelta.ShortestIsMerged | backend/crates/codex-robdex-bridge/src/transforms.rs:27-53 | there is exactly one shortest such string |
| MergeDelta.OverlapsMeetAtBoundaries | backend/crates/codex-robdex-bridge/src/transforms.rs:38-50 | two texts never overlap in the middle of a character |
| MergeDelta.MergedIsText | backend/crates/codex-robdex-bridge/src/transforms.rs:38-52 | the merge of two texts is valid text |
| MergeDelta.SnapshotOrReplay | backend/crates/codex-robdex-bridge/src/transforms.rs:28-36 | the delta replaces the text exactly when it extends it, and changes nothing exactly when the text ends with it |
| MergeDelta.MergedTwice | backend/crates/codex-robdex-bridge/src/transforms.rs:27-53 | the same delta twice is the delta once |
| MergeDelta.AppendedUnlessOverlapping | backend/crates/codex-robdex-bridge/src/transforms.rs:52 | plain appending happens exactly when no end of the text is a start of the delta |
| MergeDelta.PiecesConcatenateExactly | backend/crates/codex-robdex-bridge/src/transforms.rs:27-53 | a stream of pieces comes out as their concatenation exactly when no piece overlaps the text before it |
| MergeDelta.ReplayedStreamEndsAtLast | backend/crates/codex-robdex-bridge/src/transforms.rs:27-53 | a stream of growing snapshots with ends of the text so far repeated anywhere leaves the last snapshot |
| MergeDelta.SnapshotsFoldToLast | backend/crates/codex-robdex-bridge/src/transforms.rs:27-53 | folding growing snapshots from the empty text gives the last |
| CachePrune.PruneThread | backend/crates/codex-robdex-bridge/src/transforms.rs:55-69 | removes exactly one thread from the three parts and keeps the rest with its order and timestamp; changed exactly when the payload differs |
| CachePrune.PruneOrphaned | backend/crates/codex-robdex-bridge/src/transforms.rs:71-113 | keeps exactly the live entries of the three parts, with their contents, and the timestamp; the reported ids are the non-live keys of the messages in ascending order, then those of the contexts not among them, free of duplicates; changed exactly when the payload differs |
| CachePrune.OrphansOneByOne | backend/crates/codex-robdex-bridge/src/transforms.rs:55-113 | single prunes over a list, in any order, give the orphan prune exactly when the list holds every orphan and no live thread of the cache |
| CachePrune.PrunedIsClean | backend/crates/codex-robdex-bridge/src/transforms.rs:71-113 | afterwards exactly the live threads are mentioned, with their contents, and a second prune does nothing |
| CachePrune.WithoutPush | backend/crates/codex-robdex-bridge/src/transforms.rs:60-62 | retaining looks at one entry after the other: what stays keeps its order and its repetitions |
| KeyOrder.StringBelowExactly | backend/crates/codex-robdex-bridge/src/transforms.rs:78-84 | the order of the sorted maps: a prefix first, else the smaller character at the first difference |
| HookPath.NormalizePath | backend/crates/codex-robdex-bridge/src/hooks.rs:637-651 | the stack of names computes where the path leads |
| HookPath.LastStep | backend/crates/codex-robdex-bridge/src/hooks.rs:637-651 | where a path leads, component by component: a dot nowhere, a name down, double dots up unless at the root or at nothing, the root to the root |
| HookPath.ResolveHookPath | backend/crates/codex-robdex-bridge/src/hooks.rs:616-636 | absolute paths and relative roots pass unchecked; else the path is where it leads from the normalised root, refused when that is not inside the root |
| HookPath.NormalizedIsPlain | backend/crates/codex-robdex-bridge/src/hooks.rs:637-651 | the result has no dots, normalising is idempotent and leaves exactly the dot-free paths alone |
| HookPath.NormalizingKeepsMeaning | backend/crates/codex-robdex-bridge/src/hooks.rs:637-651 | normalising keeps where a path leads from every directory exactly when it is absolute or never climbs above its start |
| HookPath.JoinedWalk | backend/crates/codex-robdex-bridge/src/hooks.rs:625-628 | normalising the joined path is walking from the normalised root |
| HookPath.AcceptedIsInside | backend/crates/codex-robdex-bridge/src/hooks.rs:616-636 | an accepted path is the normalised root followed by names; a path that climbs c levels is accepted exactly when it comes back down through the last c names of the root |

## Left out

- SlotTheorems.OwnerChangesByRelease: speaks of runs without a crash, because a crash between rewriting a record and
  persisting it loses the new lease in memory; PersistedOwnerChangesByRelease is the statement across crashes.
- SlotTheorems.Serialisable: supposes that nothing was cancelled; SlotIsSerial counts a cancelled operation as the
  sections it completed.
- SlotRuns.SlotLeftExactly: speaks of slots none of whose operations was cancelled; a cancelled one counts, in
  SlotTheorems.SlotIsSerial, as the sections it completed.
- SlotStory.OwnerStory: a hook is known by its statuses and phase; its program, timeout and payload are not modelled.
- SlotRuntime.HarnessRuntime.PrepareSlotForHook: does not return the working directory and the environment of the hook,
  which only the external hook reads.
- SlotProtocol.Persisting: persisting is one atomic step that succeeds; errors, torn writes and unreadable state files
  (which load as the default record) are not modelled.
- SlotProtocol.Initial: the theorems over runs suppose that the files found at the very first start are legal records, each
  of the slot it is named after.
- Cancellation of a request is modelled only at the points where the code awaits.
- ScriptMeaning.PlanMeansScript: speaks of scripts that are lists of simple commands, so not of reserved words, assignments,
  redirections or substitutions, and supposes that the external front end delivers the words of the script. Aliases,
  functions and what particular shells add to POSIX (brace expansion, other patterns) are not modelled.
- ExecService.PolicyCheck: the validation of request fields other than the command is one truth value.
- Readers of the slots lock (device listings), event subscribers and their lag.
- Clock readings inside one critical section share one value; timestamps are opaque and leases never expire, as in the code.
- Errors while creating directories, hook output and its JSON, environment variables and timeouts of hooks are arbitrary
  answers.
- The shell front end that splits a script into plain commands, rule matching, and decompression are arbitrary functions.
- Texts of reasons and justifications, the flags derived from the exit code, and hot reload of the policy.
- Splitting a path string into components, links, and path prefixes of other systems.
- HTTP routing, process spawning, simulator control, the user interfaces and the command line wrappers.
