# EVM debugger: recorder, navigator, session protocol and trace cache

The debugger replays one transaction on an OS thread, records a snapshot before every
opcode, and then lets a user move through the stored list. This project models the four
parts that make that work and proves what they promise together.

- **Call trees and hooks** (`CallTree.dfy`, `TreePaths.dfy`). An execution is a tree: a frame
  is a list of instructions, each of which may open a frame; a frame answered by a precompile
  or an early failure has no steps. `RunFrame` gives the order in which revm calls the
  inspector, including a run whose abort flag first reads true at any step `k`. That order is
  the one assumption about revm: `call`/`create` see the caller's journal depth, `step` sees
  the frame's own, and a halted frame is left at once. `StepOverTarget` says what stepping
  over means on the tree alone.
- **Recorder** (`Inspector.dfy`, `Recording.dfy`, `SnapshotMeaning.dfy`). `StepDebugInspector` is
  a class whose hook methods are proved equal to `Apply`; the theorems are about any hook stream
  or any tree. `SnapshotMeaning.dfy` says what a snapshot shows in the tree's own terms, with
  every printed text read back and every constant written out.
- **Sessions** (`Session.dfy`, `Navigation.dfy`, `StepOver.dfy`). `DebugSession` is a class over
  a four-state value; its methods are proved equal to `After`, `StoreMessage` and `CurrentState`.
  `StepOver.dfy` joins the depth scan to the call tree.
- **Thread, service and protocol** (`Executor.dfy`, `SessionService.dfy`, `Protocol.dfy`,
  `ProtocolSafety.dfy`, `ProtocolLiveness.dfy`, `ProtocolFairness.dfy`, `AbortWindow.dfy`,
  `ProtocolHistory.dfy`). The thread body and `create_session` are methods; `Protocol`
  interleaves any number of background tasks, EVM threads, commands and aborts. An abort is two
  separate writes, an EVM step may read a stale false from the flag, and permits are granted in
  queue order, as tokio's semaphore promises. Safety is about finite schedules, liveness about
  infinite weakly fair ones, and `ProtocolHistory.dfy` about what each client sees of a schedule.
- **Cache identity** (`Hex.dfy`, `TxHash.dfy`, `TracePath.dfy`, `CacheIdentity.dfy`). Hash
  spellings, file names, and what a hit on a name restores.

Three findings are stated as results, each with the condition under which the code does
what it should.

- A trace cut by an abort can be cached as if it were whole, at any step, through the gap
  between the abort's two writes and only through it (`AnyPrefixCanBeCached`,
  `CutTracesComeFromTheWindow`, `AtomicAbortsSaveOnlyWholeTraces`). A trace cut by a replay
  error is cached without a result, and sessions restored from it end in Aborted although
  nobody aborted (`ErrorCutCanBeCached`).
- `gas_used` is a frame's own consumption exactly while the frame has had no interpreted callee
  or has consumed nothing, and too small otherwise (`GasUsedRightExactlyBeforeCalls`,
  `GasUsedWrongAfterCall`).
- Every session leaves Loading for good under weak fairness when at least one permit is
  configured (`EverySessionLeavesLoading`). Configured with none, a weakly fair schedule leaves
  one in Loading for ever (`FairnessNeedsAPermit`, `NoPermitsNoProgress`).

Where comments and code differ the code is followed: `memory_hex` is called a full dump in
`src/types.rs` but is cut at the configured limit. The parser behind `parse::<B256>()` is not
in the repository; it is taken to accept at most one lower-case `0x` and then exactly 64
hexadecimal digits of either case.

The project has no executable part. `dafny verify dfyconfig.toml` checks it.

## Model

| member | source | states |
|---|---|---|
| Inspector.MemoryDumpIsPrefix | src/inspector.rs:49-56 | the memory dump decodes to exactly the first `max` bytes and is flagged truncated exactly when bytes are missing |
| Inspector.SnapshotBuffer.Take | src/executor.rs:147 | taking the shared vector returns all of it and leaves it empty |
| Inspector.StepDebugInspector.constructor | src/inspector.rs:32-47 | a new inspector has an empty call stack, logs and storage, step 0 and gas base 0 |
| Inspector.StepDebugInspector.InitializeInterp | src/inspector.rs:146-148 | a new interpreter overwrites the gas base and nothing else |
| Inspector.StepDebugInspector.OnStep | src/inspector.rs:150-185 | an observed abort records nothing and halts; otherwise the store is noted first, then one snapshot is pushed and the counter bumped |
| Inspector.StepDebugInspector.RecordStore | src/inspector.rs:159-176 | opcode 0x55 with two operands writes value under slot for the innermost contract and keeps every other slot of every contract; anything else writes nothing |
| Recording.StepRecorded | src/inspector.rs:58-112 | a step that is not aborted records one snapshot, which reports the interpreter, the frames, the gas base and the logs as they were before the opcode, and leaves the call stack alone |
| Inspector.StepDebugInspector.OnCall | src/inspector.rs:187-203 | a call pushes one frame record at the depth seen, with target, caller, value and kind each in its own field |
| Inspector.StepDebugInspector.OnCallEnd | src/inspector.rs:205-207 | the end of a call pops one frame record, and nothing from an empty stack |
| Inspector.StepDebugInspector.OnCreate | src/inspector.rs:209-219 | a create pushes a frame record under the zero address, with creator, endowment and kind CREATE |
| Inspector.StepDebugInspector.OnCreateEnd | src/inspector.rs:221-228 | the end of a create pops one frame record |
| Inspector.StepDebugInspector.OnLog | src/inspector.rs:230-241 | a log is appended and never removed |
| Inspector.Deliver | src/executor.rs:143-144 | driving the inspector in place through a hook stream gives the fold of the hooks |
| Recording.StorageShowsLastStores | src/inspector.rs:159-176 | for any hook stream, step, contract and slot: step n is numbered n; its storage has the slot exactly when some step up to n shows opcode 0x55 with two operands, that contract and that slot on top, and the value is the second operand of the last such step; no contract is without a slot |
| Recording.LogListsGrow | src/inspector.rs:230-241 | for any hook stream each snapshot's log list is a prefix of every later one's |
| Recording.FrameRecorded | src/inspector.rs:187-228 | one frame, aborted inside or not, records exactly its first steps in execution order and restores the call stack |
| Recording.RunFollowsTree | src/inspector.rs:150-228 | for every call tree and abort point the flat list is the tree's preorder, each snapshot shows its own instruction, the records pushed for the frames around it, the gas base and the logs so far, and the call stack ends empty |
| SnapshotMeaning.SnapshotReportsFrames | src/inspector.rs:187-219 | in the snapshot of every instruction of every tree, stack entry d carries depth d and the target, caller, value and kind of the call, or creator and endowment of the create, that opened the d-th frame around it; the contract is the innermost target |
| SnapshotMeaning.SnapshotReportsInterpreter | src/inspector.rs:58-112 | the same snapshot shows the instruction's counter, opcode, name, gas, memory prefix and whole stack, top first, as text that reads back to the values held before it ran |
| Recording.SnapshotStackIsCoherent | src/inspector.rs:157-203 | in every snapshot the depth is the call stack's length, frame d carries depth d, and the contract is the innermost frame's |
| Recording.FrameCut | src/inspector.rs:150-155 | an aborted run's hooks are a prefix of the unaborted run's, followed only by halting steps and frame ends |
| Recording.AbortGivesPrefix | src/inspector.rs:150-185 | wherever the flag is first observed the trace is exactly the first k snapshots of the whole one, and unwinding empties the call stack |
| Recording.FatalErrorGivesPrefix | src/executor.rs:184-196 | a replay that dies after any number of hooks also leaves a prefix of the whole trace |
| TreePaths.TargetIsEnd | src/session.rs:160-183 | on the tree, the next instruction of the same frame, else of the nearest caller that has one, is exactly the first instruction after the whole call |
| TreePaths.CalleeIsDeeper | src/session.rs:172-178 | whatever executes between an instruction and the end of its call sits deeper |
| StepOver.StepOverFollowsTree | src/session.rs:160-183 | on any whole or cut recorded trace the depth scan lands on the tree's step-over target, or at the end |
| StepOver.StepOverFromAnyIndex | src/session.rs:160-183 | the same from every index, which is the place of exactly one instruction of the tree; it skips exactly the callee's steps, nested and zero-step frames included |
| StepOver.RecorderAndNavigatorAgree | src/session.rs:160-183 | the same for what the inspector records, for every tree and abort point |
| StepOver.StepOverKeepsCallStack | src/inspector.rs:187-228 | landing at the depth it left, step over shows the identical call stack |
| StepOver.StepOverWalksRootFrame | src/session.rs:172-179 | repeated from index 0 it visits exactly the root frame's own instructions in order, then ends |
| StepOver.RecordedRowIsUnique | src/session.rs:214-228 | on a recorded trace the paused snapshot's step number selects exactly the row at the current index |
| StepOver.GasUsedCountsFromLastInit | src/inspector.rs:67-68 | on any tree `gas_used` counts from the last initialised interpreter's limit, which is the frame's own before any interpreted callee |
| StepOver.OwnLimitExactlyBeforeCalls | src/inspector.rs:146-148 | when every callee's limit lies below its caller's, the gas base in force at an instruction is its own frame's limit if and only if that frame has had no interpreted callee, and smaller otherwise |
| StepOver.GasUsedRightExactlyBeforeCalls | src/inspector.rs:67-68 | then `gas_used` is the frame's own consumption if and only if the frame has had no interpreted callee or has consumed nothing, and never more than it |
| StepOver.GasUsedWrongAfterCall | src/inspector.rs:146-148 | a tree where a caller's consumption of 50 is shown as 0 after its callee returned |
| Session.ScanTo | src/session.rs:172-178 | the scan returns the first index from its start whose depth is no more than the target, or the end |
| Session.Channel.Send | src/executor.rs:199 | a send into the empty one-place channel stores the message and counts once |
| Session.Channel.Recv | src/session.rs:102-106 | receiving yields the waiting message, or nothing once the sender is gone |
| Session.DebugSession.New | src/session.rs:47-54 | a new session is Loading, holds its receiver and has a clear flag |
| Session.DebugSession.FromFile | src/session.rs:56-70 | a restored session is Ready at index 0 with the file's trace and result and no receiver |
| Session.DebugSession.SnapshotsForCache | src/session.rs:81-89 | only a ready session yields a file, with its snapshots and result |
| Session.DebugSession.WaitForSnapshots | src/session.rs:92-142 | takes the receiver once; the message, or the disconnection error, is stored unless the session was aborted; a second call is an error and changes nothing |
| Session.DebugSession.StepInto | src/session.rs:145-158 | a ready session's index moves by one, capped at the end, and the answer is the snapshot there or the result; other states are unchanged and named |
| Session.DebugSession.StepOver | src/session.rs:161-183 | the in-place scan stops at the first later index no deeper than where it began, or at the end, changes nothing else, and answers with the state there |
| Session.DebugSession.ContinueExec | src/session.rs:186-199 | a ready session's index goes to the end, whose answer is the result, or Aborted without one |
| Session.DebugSession.AbortNow | src/session.rs:202-205 | sets the flag and replaces the data by Aborted |
| Session.DebugSession.GetTraceSteps | src/session.rs:214-228 | a ready session yields as many rows as snapshots, row i with the number, counter, opcode and name of snapshot i; any other session yields none |
| Navigation.AnswersTellTheState | src/session.rs:145-259 | in every state every state command answers with what it leaves: Loading, Aborted or the error by name, the snapshot at the new index, the result or Aborted at the end; step, continue and poll move the index exactly as far as they should |
| Navigation.CommandsOnlyMoveForward | src/session.rs:145-205 | over any commands without an abort, snapshots and result stay and the index moves forward within bounds; with one the session ends aborted |
| Navigation.AbortedAbsorbs | src/session.rs:145-211 | an aborted session stays aborted and answers Aborted to every state command |
| Navigation.EndIsFixed | src/session.rs:186-247 | continuing reaches the end, where every state command answers the result, or Aborted without one, and moves nothing |
| Navigation.StepOverIsLeastReturn | src/session.rs:160-183 | step over equals the least positive number of step-intos that comes back to the starting depth or ends |
| Navigation.SkipsNeverCross | src/session.rs:172-178 | the stretches two step-overs skip nest or are disjoint |
| Navigation.StepOverNeverDeepens | src/session.rs:172-179 | step over moves forward and never to a deeper snapshot |
| Navigation.ScanIsUnique | src/session.rs:172-178 | the scan's result is the only index with its three properties |
| Navigation.StepOverOnPrefix | src/session.rs:160-183 | on a cut trace step over does what it did on the whole one, up to the cut |
| Navigation.FirstAnswerMatchesPoll | src/session.rs:108-141 | the first answer equals a poll in the same critical section exactly when the session was aborted or the message is not the empty trace without a result |
| Navigation.PausedRowIsUnique | src/session.rs:214-228 | on a trace numbered in order the paused number selects one row |
| Navigation.SavedFileForgetsMoves | src/session.rs:56-89 | the file saved after any commands restores the session as first ready, and there is none exactly after an abort |
| Executor.RunEvmThread | src/executor.rs:25-201 | on every path exactly one message is sent, into an empty channel: the first failing check and its input, or everything recorded with the success, gas, output bytes and reason the replay returned, or its error |
| Executor.FirstAnswerIsCurrentState | src/executor.rs:184-199 | no path sends the empty trace without a result, so the first answer is always the current state |
| Executor.MessageMirrorsTree | src/executor.rs:143-199 | a sent trace mirrors the call tree up to the cut and is a prefix of the whole trace |
| SessionService.Service.CreateSession | src/session_service.rs:97-146 | the errors of hash, URL, fetcher and an unreadable cache file, in that order, insert nothing; a hit inserts a ready session from a file named for the fetched chain and block and the canonical hash and answers with its state and rows; a miss inserts a loading one and hands over a job for that name |
| SessionService.Service.WaitAndSave | src/session_service.rs:132-137 | the message is stored, then a ready session is saved under the path and nothing else is |
| ProtocolSafety.ReachableInv | src/session_service.rs:117-139 | every state any schedule reaches satisfies the session, queue, permit and cache invariants |
| ProtocolSafety.ConcurrencyIsBounded | src/session_service.rs:128-138 | free plus held permits is the configured number, and no more EVM threads than that have yet to send |
| ProtocolSafety.SendNeverBlocks | src/session_service.rs:117 | a thread that has yet to send finds the channel empty, in every reachable state |
| ProtocolSafety.EveryThreadMessageIsModelled | src/executor.rs:143-199 | every message the thread body can send, for any abort and any error point, is one the protocol's thread can send |
| ProtocolSafety.CutTracesComeFromTheWindow | src/session_service.rs:132-137 | a cached file is a prefix of its owner's trace, and whole exactly when the replay recorded its last step, or, with a result, never observed the flag; an abort cut it only if it was read inside the abort's window; it lacks a result exactly when the replay died |
| ProtocolSafety.WindowIsBetweenTheTwoWrites | src/session.rs:202-205 | the read is in the window exactly when it finds a ready session whose flag is stored, and then the data store is still to come |
| ProtocolSafety.AtomicAbortsSaveOnlyWholeTraces | src/session.rs:202-205 | if every abort makes its writes back to back, no cached trace was cut by an abort |
| ProtocolSafety.AbortAbsorbs | src/session.rs:92-142 | after the data store no schedule changes the session, a message already received is dropped, and every later state answer is Aborted |
| ProtocolSafety.WarmEqualsCold | src/session_service.rs:107-137 | in every reachable state a session restored from a file equals its owner as first ready and answers every command sequence alike |
| ProtocolSafety.EverySessionStepsOverCalls | src/session.rs:160-183 | in every reachable state every ready session, fresh or restored, whole or cut, points at an instruction of its call tree, and the protocol's step-over of it lands where the tree says |
| ProtocolHistory.DataFollowsOwnCommands | src/session.rs:145-211 | in every schedule a session is Aborted exactly if an abort stored its data, Loading exactly until its message is stored, and once ready at the index to which its own commands since then lead from the start, whatever is interleaved |
| ProtocolHistory.PollTellsWhatHappened | src/session.rs:208-259 | in every schedule a poll answers Aborted, Loading, the thread's own error, the execution's own snapshot at the index, or the outcome the replay returned, each exactly when it should |
| ProtocolHistory.CommandMovesOnlyItsSession | src/session.rs:145-199 | a command in the protocol moves its own session's index as the method does and changes nothing else in the system |
| ProtocolHistory.OnlySavesChangeTheCache | src/session_service.rs:132-137 | a working save writes the file its session read under its session's path; no other step, and no failing save, changes what any path holds |
| ProtocolHistory.CachedForGood | src/session_service.rs:104-115 | once a path is cached, in every schedule every later session on it is restored and has no background task |
| ProtocolHistory.MovedSessionIsSavedWhole | src/session.rs:56-89 | for every execution and index a schedule moves the session there before its file is read, and the file is still the whole trace, restored at its start |
| AbortWindow.AnyPrefixCanBeCached | src/session.rs:202-205 | for every execution and step k a schedule caches exactly the first k snapshots with the result the halted replay returned, and the next session starts from them |
| AbortWindow.ErrorCutCanBeCached | src/session_service.rs:132-137 | for every execution and k > 0 a schedule without aborts caches the first k snapshots without a result, and this session and the next answer Aborted at their end |
| CacheIdentity.WarmIsWhatWasAskedFor | src/session_service.rs:104-115 | when equal paths are asked for equal executions, a hit restores a prefix of the requested execution's trace, and all of it exactly when its owner recorded the last step |
| CacheIdentity.GenuineRequestsIdentify | src/trace_cache.rs:13-23 | when chain, block and hash name an execution, equal paths are asked for equal executions, whatever the spellings |
| CacheIdentity.CacheHitIsTheRequestedTransaction | src/session_service.rs:99-115 | hence in every schedule of such requests a hit shows the first steps of the requested transaction and of no other |
| ProtocolLiveness.RankFalls | src/session_service.rs:128-139 | no step raises the rank of a queued or later session, and each step it waits for lowers it |
| ProtocolLiveness.LoadingSessionHasHelp | src/session_service.rs:128-139 | with a permit, while any session is loading a step it waits for is enabled |
| ProtocolFairness.EverySessionLeavesLoading | src/session_service.rs:117-139 | with a permit, in every infinite weakly fair schedule every session sooner or later is no longer Loading and its task has given its permit back, both for good |
| ProtocolFairness.EveryRunExtendsFairly | src/session_service.rs:117-139 | every finite run goes on to a weakly fair schedule, so that fairness rules out no behaviour |
| ProtocolFairness.FairnessNeedsAPermit | src/session_service.rs:129 | with no permits some weakly fair schedule leaves its session Loading for ever |
| ProtocolLiveness.VanishedThreadBecomesError | src/session.rs:102-106 | storing for a vanished thread makes the session the disconnection error, or leaves it aborted |
| ProtocolLiveness.NoPermitsNoProgress | src/session_service.rs:129 | with no permits a session is Loading or Aborted for ever |
| Hex.WordInjective | src/inspector.rs:74 | distinct 256-bit words print differently |
| Hex.WordReadsBack | src/inspector.rs:74 | a word prints as "0x" and 64 lower-case digits that read back, most significant first, as the word |
| Hex.EncodeSpells | src/inspector.rs:55 | bytes print in order, each as two lower-case digits, the higher first |
| TxHash.CanonicalizeMeaning | src/session_service.rs:149-165 | accepted exactly when, trimmed and without one optional prefix, 64 hexadecimal digits remain; the result is those digits in lower case |
| TxHash.SpellingsAreAccepted | src/session_service.rs:149-165 | blanks, an optional 0x or 0X, 64 characters of 0-9, a-f, A-F and blanks are accepted, and give "0x" and those characters with the capitals lowered |
| TxHash.AcceptedIsSpelled | src/session_service.rs:149-165 | nothing else is accepted |
| TxHash.EverySpellingAgrees | src/session_service.rs:149-165 | every whitespace, prefix and case spelling of the same 32 bytes gives the same text |
| TxHash.CanonicalizeIdempotent | src/session_service.rs:149-165 | canonical text is a fixed point |
| TxHash.CanonicalTextsDiffer | src/session_service.rs:149-165 | canonical texts agree exactly when the bytes do |
| TxHash.DoubledPrefixRejected | src/session_service.rs:154-161 | a doubled prefix of either case is rejected |
| TracePath.PathRoundTrip | src/trace_cache.rs:13-23 | a parser recovers chain, block and canonical hash from the path |
| TracePath.PathIsSpelled | src/trace_cache.rs:13-23 | the path is cache/trace_, the chain in decimal or unknown, the block in decimal and the 64 digits, joined by underscores, and .json |
| TracePath.SameFileIffSameKey | src/trace_cache.rs:13-23 | two requests share a file exactly when bytes, chain and block agree; unknown is never a numbered chain |

## Left out

- revm's opcode semantics, journal, database and RPC reads: an execution is its call tree, and addresses, values, log texts and opcode names come with it as text.
- Revert: recorded stores and logs are never rolled back, as in the source, so nothing is claimed about committed chain state.
- Building the transaction and block environment: each fallible set-up check is a yes-or-no input of `Setup`, and values that default silently are not modelled.
- JSON, files and atomic rename: the cache is a map from path to contents; a failing save is a step of the protocol and an input of `WaitAndSave`, an unreadable file an input of `CreateSession` only.
- URL validation, the fetcher, CORS, routes and the front end: the URL verdict and the fetched chain and block are inputs.
- Session garbage collection and cache clean-up: clock-driven; the background task keeps its own reference, so the protocol has no step for them.
- Mutex poisoning, and a failure to start an OS thread: locks are atomic sections and a start always succeeds.
- Unbounded counters: the step counter, lengths and memory sizes are natural numbers; gas, chain and block are 64-bit.
- Inspector.Deliver: the abort flag is an input of each step hook, so that a stale read can be expressed; the shared atomic itself is the protocol's.
- Session.DebugSession.WaitForSnapshots: blocking is a precondition on the channel; the interleaved version is the protocol's.
- ProtocolFairness.EverySessionLeavesLoading: weak fairness of tokio and of the operating system is a hypothesis, and a replay is a finite tree.
- StepOver.GasUsedRightExactlyBeforeCalls: that a callee's gas limit lies below its caller's (EIP-150) is a hypothesis about revm; without it StepOver.GasUsedCountsFromLastInit holds.
- CacheIdentity.CacheHitIsTheRequestedTransaction: that chain, block and hash name one execution is a hypothesis; networks whose chain is unknown share file names.
