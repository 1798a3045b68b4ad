/** What the recorder's flat snapshot list says about the call tree that produced it. */
module Recording {
  import opened Types
  import opened CallTree
  import opened Inspector

  // ==== Facts about every hook stream ====

  /** The storage map a reader recovers from the trace alone, last write winning. */
  function Replay(trace: seq<StepSnapshot>): StorageMap {
    if trace == [] then map[]
    else
      var last := trace[|trace| - 1];
      var before := Replay(trace[..|trace| - 1]);
      if last.opcode == SSTORE && |last.stack| >= 2
      then Write(before, last.contractAddress, last.stack[0], last.stack[1])
      else before
  }

  /** Snapshots are numbered in order, and each carries the storage that the trace up to
      and including it implies. */
  ghost predicate ReplayableTrace(trace: seq<StepSnapshot>) {
    forall n :: 0 <= n < |trace| ==>
      trace[n].stepNumber == n && trace[n].storageChanges == Replay(trace[..n + 1])
  }

  ghost predicate Replayable(r: Recorder) {
    r.stepNumber == |r.snapshots| && r.storage == Replay(r.snapshots) && ReplayableTrace(r.snapshots)
  }

  /** Log lists only grow along the trace. */
  ghost predicate LogsGrow(r: Recorder) {
    && (forall n :: 0 <= n < |r.snapshots| ==> r.snapshots[n].logs <= r.logs)
    && (forall m, n :: 0 <= m < n < |r.snapshots| ==> r.snapshots[m].logs <= r.snapshots[n].logs)
  }

  lemma StoreIsReplayed(r: Recorder, view: InterpView, depth: nat)
    requires r.storage == Replay(r.snapshots)
    ensures var r' := OnStep(r, view, depth, false);
      r'.storage == Replay(r'.snapshots) && r'.snapshots[|r.snapshots|].storageChanges == r'.storage
  {
    var r' := OnStep(r, view, depth, false);
    assert r'.snapshots[..|r.snapshots|] == r.snapshots;
  }

  lemma ReplayableGrows(trace: seq<StepSnapshot>, next: StepSnapshot)
    requires ReplayableTrace(trace)
    requires next.stepNumber == |trace| && next.storageChanges == Replay(trace + [next])
    ensures ReplayableTrace(trace + [next])
  {
    var grown := trace + [next];
    forall n | 0 <= n < |grown|
      ensures grown[n].stepNumber == n && grown[n].storageChanges == Replay(grown[..n + 1])
    {
      assert if n < |trace| then grown[..n + 1] == trace[..n + 1] else grown[..n + 1] == grown;
    }
  }

  lemma StepKeepsReplayable(r: Recorder, view: InterpView, depth: nat)
    requires Replayable(r)
    ensures Replayable(OnStep(r, view, depth, false))
  {
    StoreIsReplayed(r, view, depth);
    ReplayableGrows(r.snapshots, Capture(NoteStore(r, view), view, depth));
  }

  lemma {:induction false} AnyStreamReplayable(r: Recorder, hooks: seq<Hook>)
    requires Replayable(r)
    ensures Replayable(ApplyAll(r, hooks))
    decreases |hooks|
  {
    if hooks != [] {
      if hooks[0].Step? && !hooks[0].aborted {
        StepKeepsReplayable(r, hooks[0].view, hooks[0].depth);
      }
      AnyStreamReplayable(Apply(r, hooks[0]), hooks[1..]);
    }
  }

  lemma {:induction false} AnyStreamLogsGrow(r: Recorder, hooks: seq<Hook>)
    requires LogsGrow(r)
    ensures LogsGrow(ApplyAll(r, hooks))
    decreases |hooks|
  {
    if hooks != [] {
      AnyStreamLogsGrow(Apply(r, hooks[0]), hooks[1..]);
    }
  }

  /** Whatever hooks revm delivers: the i-th snapshot is numbered i, the storage map of
      every snapshot is recoverable from the trace up to it, and so is the recorder's own. */
  lemma StorageIsReplayable(maxMemory: nat, hooks: seq<Hook>)
    ensures Replayable(ApplyAll(NewRecorder(maxMemory), hooks))
  {
    AnyStreamReplayable(NewRecorder(maxMemory), hooks);
  }

  /** The snapshot shows an SSTORE under `slot` in the storage of `contract`. */
  predicate ShowsStore(s: StepSnapshot, contract: string, slot: string) {
    s.opcode == 0x55 && |s.stack| >= 2 && s.contractAddress == contract && s.stack[0] == slot
  }

  predicate Holds(storage: StorageMap, contract: string, slot: string) {
    contract in storage && slot in storage[contract]
  }

  /** Step `j` shows the last store to the slot up to the end of `trace`. */
  predicate LastStore(trace: seq<StepSnapshot>, contract: string, slot: string, j: nat) {
    && j < |trace| && ShowsStore(trace[j], contract, slot)
    && forall i :: j < i < |trace| ==> !ShowsStore(trace[i], contract, slot)
  }

  lemma ReplayOneStep(trace: seq<StepSnapshot>, contract: string, slot: string)
    requires trace != []
    ensures var (before, last) := (Replay(trace[..|trace| - 1]), trace[|trace| - 1]);
      && (Holds(Replay(trace), contract, slot) <==> Holds(before, contract, slot) || ShowsStore(last, contract, slot))
      && (ShowsStore(last, contract, slot) ==> Replay(trace)[contract][slot] == last.stack[1])
      && (Holds(before, contract, slot) && !ShowsStore(last, contract, slot) ==>
            Replay(trace)[contract][slot] == before[contract][slot])
  {
  }

  lemma {:induction false} HeldSlotWasStored(trace: seq<StepSnapshot>, contract: string, slot: string) returns (j: nat)
    requires Holds(Replay(trace), contract, slot)
    ensures LastStore(trace, contract, slot, j)
    decreases |trace|
  {
    j := |trace| - 1;
    ReplayOneStep(trace, contract, slot);
    if !ShowsStore(trace[j], contract, slot) {
      j := HeldSlotWasStored(trace[..|trace| - 1], contract, slot);
    }
  }

  lemma {:induction false} StoredSlotIsHeld(trace: seq<StepSnapshot>, contract: string, slot: string, j: nat)
    requires j < |trace| && ShowsStore(trace[j], contract, slot)
    ensures Holds(Replay(trace), contract, slot)
    ensures LastStore(trace, contract, slot, j) ==> Replay(trace)[contract][slot] == trace[j].stack[1]
    decreases |trace|
  {
    ReplayOneStep(trace, contract, slot);
    if j < |trace| - 1 {
      StoredSlotIsHeld(trace[..|trace| - 1], contract, slot, j);
    }
  }

  lemma {:induction false} NoEmptyContract(trace: seq<StepSnapshot>, contract: string) returns (slot: string)
    requires contract in Replay(trace)
    ensures Holds(Replay(trace), contract, slot)
    decreases |trace|
  {
    var last := trace[|trace| - 1];
    if contract in Replay(trace[..|trace| - 1]) {
      slot := NoEmptyContract(trace[..|trace| - 1], contract);
      ReplayOneStep(trace, contract, slot);
    } else {
      slot := last.stack[0];
    }
  }

  /** Whatever hooks revm delivers, the storage shown at step `n` has a slot exactly when a
      step up to `n` shows an SSTORE to it, with the value of the last one, and has no
      contract without a slot. */
  lemma StorageShowsLastStores(maxMemory: nat, hooks: seq<Hook>, n: nat, contract: string, slot: string)
    requires n < |ApplyAll(NewRecorder(maxMemory), hooks).snapshots|
    ensures var trace := ApplyAll(NewRecorder(maxMemory), hooks).snapshots;
      var storage := trace[n].storageChanges;
      && trace[n].stepNumber == n
      && (Holds(storage, contract, slot) <==> exists j :: 0 <= j <= n && ShowsStore(trace[j], contract, slot))
      && (forall j: nat :: LastStore(trace[..n + 1], contract, slot, j) ==>
            Holds(storage, contract, slot) && storage[contract][slot] == trace[j].stack[1])
      && (contract in storage ==> exists k :: Holds(storage, contract, k))
  {
    var trace := ApplyAll(NewRecorder(maxMemory), hooks).snapshots;
    StorageIsReplayable(maxMemory, hooks);
    var shown := trace[..n + 1];
    assert trace[n].storageChanges == Replay(shown);
    if Holds(Replay(shown), contract, slot) {
      var j := HeldSlotWasStored(shown, contract, slot);
      assert ShowsStore(trace[j], contract, slot);
    }
    forall j: nat | j <= n && ShowsStore(trace[j], contract, slot)
      ensures Holds(Replay(shown), contract, slot)
    {
      assert shown[j] == trace[j];
      StoredSlotIsHeld(shown, contract, slot, j);
    }
    forall j: nat | LastStore(shown, contract, slot, j)
      ensures Holds(Replay(shown), contract, slot) && Replay(shown)[contract][slot] == trace[j].stack[1]
    {
      StoredSlotIsHeld(shown, contract, slot, j);
    }
    if contract in Replay(shown) {
      var k := NoEmptyContract(shown, contract);
    }
  }

  /** Each snapshot's log list is a prefix of every later snapshot's. */
  lemma LogListsGrow(maxMemory: nat, hooks: seq<Hook>)
    ensures LogsGrow(ApplyAll(NewRecorder(maxMemory), hooks))
  {
    AnyStreamLogsGrow(NewRecorder(maxMemory), hooks);
  }

  lemma {:induction false} SnapshotsOnlyGrow(r: Recorder, hooks: seq<Hook>)
    ensures r.snapshots <= ApplyAll(r, hooks).snapshots
    decreases |hooks|
  {
    if hooks != [] {
      SnapshotsOnlyGrow(Apply(r, hooks[0]), hooks[1..]);
    }
  }

  /** A replay that dies part-way leaves a prefix of the trace. */
  lemma StreamPrefixRecordsPrefix(r: Recorder, hooks: seq<Hook>, m: nat)
    requires m <= |hooks|
    ensures ApplyAll(r, hooks[..m]).snapshots <= ApplyAll(r, hooks).snapshots
  {
    assert hooks == hooks[..m] + hooks[m..];
    ApplyConcat(r, hooks[..m], hooks[m..]);
    SnapshotsOnlyGrow(ApplyAll(r, hooks[..m]), hooks[m..]);
  }

  // ==== The trace a call tree should leave ====

  /** What runs on through the whole execution: the gas limit of the interpreter that was
      initialised last, and the logs so far. */
  datatype Ambient = Ambient(gas: U64, logs: seq<LogEntry>)

  function AfterInstr(i: Instr, amb: Ambient): Ambient
    decreases i
  {
    var logged := amb.(logs := amb.logs + i.logs);
    if HasCode(i) then AfterCode(i.child.value.body.code, logged.(gas := i.child.value.body.gasLimit)) else logged
  }

  function AfterCode(code: seq<Instr>, amb: Ambient): Ambient
    decreases code
  {
    if code == [] then amb else AfterCode(code[1..], AfterInstr(code[0], amb))
  }

  /** One executed instruction with the frames that are open around it. */
  datatype Visit = Visit(view: InterpView, frames: seq<CallFrame>, amb: Ambient)

  function InstrVisits(i: Instr, frames: seq<CallFrame>, amb: Ambient): (v: seq<Visit>)
    ensures |v| == 1 + Size(ChildCode(i))
    decreases i
  {
    [Visit(i.view, frames, amb)]
    + if HasCode(i) then
        var f := i.child.value;
        Visits(f.body.code, frames + [FrameRecord(f.input, |frames|)], Ambient(f.body.gasLimit, amb.logs + i.logs))
      else []
  }

  function Visits(code: seq<Instr>, frames: seq<CallFrame>, amb: Ambient): (v: seq<Visit>)
    ensures |v| == Size(code)
    decreases code
  {
    if code == [] then []
    else InstrVisits(code[0], frames, amb) + Visits(code[1..], frames, AfterInstr(code[0], amb))
  }

  /** The visits of a whole transaction. */
  function Trace(f: Frame): (v: seq<Visit>)
    ensures |v| == Steps(f)
  {
    if f.body.Interpreted?
    then Visits(f.body.code, [FrameRecord(f.input, 0)], Ambient(f.body.gasLimit, []))
    else []
  }

  /** The snapshot reports this visit and nothing else. */
  ghost predicate Shows(s: StepSnapshot, v: Visit, maxMemory: nat) {
    && s.pc == v.view.pc
    && s.opcode == v.view.opcode
    && s.opcodeName == OpcodeName(v.view)
    && s.callDepth == |v.frames|
    && s.gasRemaining == v.view.gasRemaining
    && s.gasUsed == SaturatingSub(v.amb.gas, v.view.gasRemaining)
    && s.stack == StackText(v.view.stack)
    && s.memorySize == |v.view.memory|
    && (s.memoryHex, s.memoryTruncated) == EncodeMemory(v.view.memory, maxMemory)
    && s.callStack == v.frames
    && s.logs == v.amb.logs
    && s.contractAddress == TopContract(v.frames)
  }

  ghost predicate ShowsAt(trace: seq<StepSnapshot>, visits: seq<Visit>, maxMemory: nat, j: nat) {
    j < |trace| && j < |visits| && Shows(trace[j], visits[j], maxMemory)
  }

  /** The snapshots report the visits in order, from the first to wherever they stop. */
  ghost predicate ShowsAll(trace: seq<StepSnapshot>, visits: seq<Visit>, maxMemory: nat) {
    && |trace| <= |visits|
    && forall j: nat :: j < |trace| ==> ShowsAt(trace, visits, maxMemory, j)
  }

  lemma ShowsAllConcat(t1: seq<StepSnapshot>, t2: seq<StepSnapshot>, v1: seq<Visit>, v2: seq<Visit>, maxMemory: nat)
    requires ShowsAll(t1, v1, maxMemory) && ShowsAll(t2, v2, maxMemory)
    requires |t1| == |v1| || t2 == []
    ensures ShowsAll(t1 + t2, v1 + v2, maxMemory)
  {
    forall j: nat | j < |t1 + t2|
      ensures ShowsAt(t1 + t2, v1 + v2, maxMemory, j)
    {
      assert if j < |t1| then ShowsAt(t1, v1, maxMemory, j) else ShowsAt(t2, v2, maxMemory, j - |t1|);
    }
  }

  /** The snapshots `r'` has beyond those of `r`. */
  function Fresh(r: Recorder, r': Recorder): seq<StepSnapshot>
    requires r.snapshots <= r'.snapshots
  {
    r'.snapshots[|r.snapshots|..]
  }

  /** Between `r` and `r'` exactly the first `n` of the visits were recorded, and every
      frame entered was left. */
  ghost predicate Recorded(r: Recorder, r': Recorder, visits: seq<Visit>, n: nat) {
    && r'.callStack == r.callStack
    && r'.maxMemory == r.maxMemory
    && r.snapshots <= r'.snapshots
    && |Fresh(r, r')| == n
    && ShowsAll(Fresh(r, r'), visits, r.maxMemory)
  }

  function AmbientOf(r: Recorder): Ambient {
    Ambient(r.gasInitial, r.logs)
  }

  lemma RecordedThen(r: Recorder, r1: Recorder, r2: Recorder, v1: seq<Visit>, v2: seq<Visit>, n1: nat, n2: nat)
    requires Recorded(r, r1, v1, n1) && Recorded(r1, r2, v2, n2)
    requires n1 == |v1| || n2 == 0
    ensures Recorded(r, r2, v1 + v2, n1 + n2)
  {
    assert Fresh(r, r2) == Fresh(r, r1) + Fresh(r1, r2);
    ShowsAllConcat(Fresh(r, r1), Fresh(r1, r2), v1, v2, r.maxMemory);
  }

  lemma NoneRecorded(r: Recorder, r': Recorder, visits: seq<Visit>, others: seq<Visit>)
    requires Recorded(r, r', visits, 0)
    ensures Recorded(r, r', others, 0)
  {
  }

  /** One step that reads the abort flag as false records exactly one snapshot, which
      reports the interpreter and the inspector as they were before the opcode, and leaves
      the call stack alone. */
  lemma StepRecorded(r: Recorder, i: Instr)
    ensures var r' := Apply(r, Step(i.view, |r.callStack|, false));
      Recorded(r, r'.(logs := r'.logs + i.logs), [Visit(i.view, r.callStack, AmbientOf(r))], 1)
  {
    var r' := Apply(r, Step(i.view, |r.callStack|, false));
    var logged := r'.(logs := r'.logs + i.logs);
    assert Fresh(r, logged) == [Capture(NoteStore(r, i.view), i.view, |r.callStack|)];
    assert ShowsAt(Fresh(r, logged), [Visit(i.view, r.callStack, AmbientOf(r))], r.maxMemory, 0);
  }

  lemma {:induction false} LogsApplied(r: Recorder, logs: seq<LogEntry>)
    ensures ApplyAll(r, LogHooks(logs)) == r.(logs := r.logs + logs)
    decreases |logs|
  {
    if logs == [] {
      assert r.logs + logs == r.logs;
    } else {
      var next := r.(logs := r.logs + [logs[0]]);
      LogsApplied(next, logs[1..]);
      assert LogHooks(logs)[1..] == LogHooks(logs[1..]);
      assert next.logs + logs[1..] == r.logs + logs;
    }
  }

  lemma ApplyOne(r: Recorder, h: Hook)
    ensures ApplyAll(r, [h]) == Apply(r, h)
  {
    assert [h][1..] == [];
  }

  /** Entering and leaving a frame brackets its body and restores the call stack. */
  lemma FrameApplied(r: Recorder, input: FrameInput, body: seq<Hook>)
    ensures var depth := |r.callStack|;
      ApplyAll(r, [Enter(input, depth)] + body + [Leave(input)])
      == Apply(ApplyAll(Apply(r, Enter(input, depth)), body), Leave(input))
  {
    var enter := Enter(input, |r.callStack|);
    ApplyConcat(r, [enter] + body, [Leave(input)]);
    ApplyConcat(r, [enter], body);
    ApplyOne(r, enter);
    ApplyOne(ApplyAll(Apply(r, enter), body), Leave(input));
  }

  lemma InitApplied(r: Recorder, limit: U64, hooks: seq<Hook>)
    ensures ApplyAll(r, [InitInterp(limit)] + hooks) == ApplyAll(Apply(r, InitInterp(limit)), hooks)
  {
    ApplyConcat(r, [InitInterp(limit)], hooks);
    ApplyOne(r, InitInterp(limit));
  }

  lemma {:induction false} FrameRecorded(f: Frame, r: Recorder, k: nat)
    ensures var (hooks, left) := RunFrame(f, |r.callStack|, k);
      var r' := ApplyAll(r, hooks);
      var frames := r.callStack + [FrameRecord(f.input, |r.callStack|)];
      && left == k - Min(k, Steps(f))
      && (f.body.NotInterpreted? ==> r' == r)
      && (f.body.Interpreted? ==>
            var amb := Ambient(f.body.gasLimit, r.logs);
            && Recorded(r, r', Visits(f.body.code, frames, amb), Min(k, Steps(f)))
            && (k >= Steps(f) ==> AmbientOf(r') == AfterCode(f.body.code, amb)))
    decreases f, 0
  {
    var depth := |r.callStack|;
    var entered := Apply(r, Enter(f.input, depth));
    match f.body {
      case NotInterpreted =>
        FrameApplied(r, f.input, []);
        assert Pop(entered.callStack) == r.callStack;
      case Interpreted(limit, code) =>
        var start := Apply(entered, InitInterp(limit));
        var run := RunCode(code, depth + 1, k);
        FrameApplied(r, f.input, [InitInterp(limit)] + run.0);
        InitApplied(entered, limit, run.0);
        CodeRecorded(code, start, k);
        assert Pop(entered.callStack) == r.callStack;
        var inner := ApplyAll(start, run.0);
        assert ApplyAll(r, RunFrame(f, depth, k).0) == Apply(inner, Leave(f.input));
    }
  }

  lemma InstrApplied(r: Recorder, i: Instr, child: seq<Hook>)
    ensures var depth := |r.callStack|;
      var stepped := Apply(r, Step(i.view, depth, false));
      ApplyAll(r, [Step(i.view, depth, false)] + LogHooks(i.logs) + child)
      == ApplyAll(stepped.(logs := stepped.logs + i.logs), child)
  {
    var step := Step(i.view, |r.callStack|, false);
    ApplyConcat(r, [step] + LogHooks(i.logs), child);
    ApplyConcat(r, [step], LogHooks(i.logs));
    ApplyOne(r, step);
    LogsApplied(Apply(r, step), i.logs);
  }

  /** The inspector once it has recorded the instruction and its logs. */
  function Logged(r: Recorder, i: Instr): Recorder {
    var stepped := Apply(r, Step(i.view, |r.callStack|, false));
    stepped.(logs := stepped.logs + i.logs)
  }

  lemma RunInstrApplied(r: Recorder, i: Instr, k: nat)
    requires k > 0
    ensures var (hooks, left) := RunInstr(i, |r.callStack|, k);
      var (inner, rest) := if i.child.Some? then RunFrame(i.child.value, |r.callStack|, k - 1) else ([], k - 1);
      left == rest && ApplyAll(r, hooks) == ApplyAll(Logged(r, i), inner)
  {
    InstrApplied(r, i, if i.child.Some? then RunFrame(i.child.value, |r.callStack|, k - 1).0 else []);
  }

  lemma LoggedRecorded(r: Recorder, i: Instr)
    ensures Recorded(r, Logged(r, i), [Visit(i.view, r.callStack, AmbientOf(r))], 1)
    ensures AmbientOf(Logged(r, i)) == Ambient(r.gasInitial, r.logs + i.logs)
  {
    StepRecorded(r, i);
  }

  /** A callee's record, after that of the instruction that opened its frame. */
  lemma CalleeRecorded(i: Instr, r: Recorder, r': Recorder, k: nat)
    requires k > 0 && HasCode(i)
    requires var f := i.child.value;
      var frames := r.callStack + [FrameRecord(f.input, |r.callStack|)];
      Recorded(Logged(r, i), r', Visits(f.body.code, frames, Ambient(f.body.gasLimit, r.logs + i.logs)),
               Min(k - 1, Steps(f)))
    ensures Recorded(r, r', InstrVisits(i, r.callStack, AmbientOf(r)), Min(k, 1 + Size(ChildCode(i))))
  {
    var f := i.child.value;
    var visits := Visits(f.body.code, r.callStack + [FrameRecord(f.input, |r.callStack|)],
                         Ambient(f.body.gasLimit, r.logs + i.logs));
    LoggedRecorded(r, i);
    RecordedThen(r, Logged(r, i), r', [Visit(i.view, r.callStack, AmbientOf(r))], visits, 1, Min(k - 1, Steps(f)));
  }

  lemma {:induction false} InstrRecorded(i: Instr, r: Recorder, k: nat)
    requires k > 0
    ensures var (hooks, left) := RunInstr(i, |r.callStack|, k);
      var n := Min(k, 1 + Size(ChildCode(i)));
      && left == k - n
      && Recorded(r, ApplyAll(r, hooks), InstrVisits(i, r.callStack, AmbientOf(r)), n)
      && (k >= 1 + Size(ChildCode(i)) ==> AmbientOf(ApplyAll(r, hooks)) == AfterInstr(i, AmbientOf(r)))
    decreases i, 0
  {
    RunInstrApplied(r, i, k);
    LoggedRecorded(r, i);
    if i.child.Some? {
      FrameRecorded(i.child.value, Logged(r, i), k - 1);
      if HasCode(i) {
        CalleeRecorded(i, r, ApplyAll(r, RunInstr(i, |r.callStack|, k).0), k);
      }
    }
  }

  /** The record of the rest of the code, after that of its first instruction. */
  lemma RestRecorded(code: seq<Instr>, r: Recorder, middle: Recorder, end: Recorder, n1: nat, n2: nat)
    requires code != [] && n1 <= 1 + Size(ChildCode(code[0]))
    requires Recorded(r, middle, InstrVisits(code[0], r.callStack, AmbientOf(r)), n1)
    requires Recorded(middle, end, Visits(code[1..], r.callStack, AmbientOf(middle)), n2)
    requires n2 == 0 || (n1 == 1 + Size(ChildCode(code[0])) && AmbientOf(middle) == AfterInstr(code[0], AmbientOf(r)))
    ensures Recorded(r, end, Visits(code, r.callStack, AmbientOf(r)), n1 + n2)
  {
    var rest := Visits(code[1..], r.callStack, AfterInstr(code[0], AmbientOf(r)));
    if n2 == 0 {
      NoneRecorded(middle, end, Visits(code[1..], r.callStack, AmbientOf(middle)), rest);
    }
    RecordedThen(r, middle, end, InstrVisits(code[0], r.callStack, AmbientOf(r)), rest, n1, n2);
  }

  lemma {:induction false} CodeRecorded(code: seq<Instr>, r: Recorder, k: nat)
    ensures var (hooks, left) := RunCode(code, |r.callStack|, k);
      && left == k - Min(k, Size(code))
      && Recorded(r, ApplyAll(r, hooks), Visits(code, r.callStack, AmbientOf(r)), Min(k, Size(code)))
      && (k >= Size(code) ==> AmbientOf(ApplyAll(r, hooks)) == AfterCode(code, AmbientOf(r)))
    decreases code, 0
  {
    var depth := |r.callStack|;
    if code == [] {
    } else if k == 0 {
      ApplyOne(r, Step(code[0].view, depth, true));
    } else {
      var head := RunInstr(code[0], depth, k);
      var middle := ApplyAll(r, head.0);
      var tail := RunCode(code[1..], depth, head.1);
      InstrRecorded(code[0], r, k);
      CodeRecorded(code[1..], middle, head.1);
      ApplyConcat(r, head.0, tail.0);
      RestRecorded(code, r, middle, ApplyAll(middle, tail.0),
                   Min(k, 1 + Size(ChildCode(code[0]))), Min(head.1, Size(code[1..])));
    }
  }

  // ==== The recorder on whole transactions ====

  /** The inspector after a transaction whose abort flag first reads true at the `k`-th
      step; with `k` at least `Steps(f)` nothing is cut. */
  function Run(f: Frame, maxMemory: nat, k: nat): Recorder {
    ApplyAll(NewRecorder(maxMemory), RunFrame(f, 0, k).0)
  }

  function FullTrace(f: Frame, maxMemory: nat): seq<StepSnapshot> {
    Run(f, maxMemory, Steps(f)).snapshots
  }

  /** `trace` reports the execution of `f` in order, from the start to wherever it stops. */
  ghost predicate Mirrors(trace: seq<StepSnapshot>, f: Frame, maxMemory: nat) {
    ShowsAll(trace, Trace(f), maxMemory)
  }

  /** The flat list is the tree's execution order, every snapshot reports its instruction
      with the frames around it, and no frame stays open, aborted or not. */
  lemma RunFollowsTree(f: Frame, maxMemory: nat, k: nat)
    ensures var r := Run(f, maxMemory, k);
      && r.callStack == []
      && |r.snapshots| == Min(k, Steps(f))
      && Mirrors(r.snapshots, f, maxMemory)
  {
    FrameRecorded(f, NewRecorder(maxMemory), k);
    if f.body.Interpreted? {
      var r, r0 := Run(f, maxMemory, k), NewRecorder(maxMemory);
      assert r0.callStack + [FrameRecord(f.input, 0)] == [FrameRecord(f.input, 0)];
      assert Fresh(r0, r) == r.snapshots;
    }
  }

  lemma PrefixMirrors(trace: seq<StepSnapshot>, f: Frame, maxMemory: nat, m: nat)
    requires Mirrors(trace, f, maxMemory) && m <= |trace|
    ensures Mirrors(trace[..m], f, maxMemory)
  {
    forall j: nat | j < m
      ensures ShowsAt(trace[..m], Trace(f), maxMemory, j)
    {
      assert ShowsAt(trace, Trace(f), maxMemory, j);
    }
  }

  ghost predicate WellNested(frames: seq<CallFrame>) {
    forall k :: 0 <= k < |frames| ==> frames[k].depth == k
  }

  ghost predicate AllNested(visits: seq<Visit>, floor: nat) {
    forall j :: 0 <= j < |visits| ==> WellNested(visits[j].frames) && floor <= |visits[j].frames|
  }

  lemma {:induction false} VisitsWellNested(code: seq<Instr>, frames: seq<CallFrame>, amb: Ambient)
    requires WellNested(frames)
    ensures AllNested(Visits(code, frames, amb), |frames|)
    decreases code
  {
    if code != [] {
      var first := [Visit(code[0].view, frames, amb)];
      assert AllNested(first, |frames|);
      if HasCode(code[0]) {
        var f := code[0].child.value;
        var inner := frames + [FrameRecord(f.input, |frames|)];
        var deeper := Ambient(f.body.gasLimit, amb.logs + code[0].logs);
        VisitsWellNested(f.body.code, inner, deeper);
        assert AllNested(first + Visits(f.body.code, inner, deeper), |frames|);
      }
      assert AllNested(InstrVisits(code[0], frames, amb), |frames|);
      VisitsWellNested(code[1..], frames, AfterInstr(code[0], amb));
    }
  }

  /** In every snapshot of every run the depth is the call stack's length, the stack's
      frames carry their own indices, and the contract is the innermost frame's. */
  lemma SnapshotStackIsCoherent(trace: seq<StepSnapshot>, f: Frame, maxMemory: nat, j: nat)
    requires Mirrors(trace, f, maxMemory) && j < |trace|
    ensures var s := trace[j];
      && s.callDepth == |s.callStack| > 0
      && (forall d :: 0 <= d < |s.callStack| ==> s.callStack[d].depth == d)
      && s.contractAddress == s.callStack[|s.callStack| - 1].contract
  {
    VisitsWellNested(f.body.code, [FrameRecord(f.input, 0)], Ambient(f.body.gasLimit, []));
    assert ShowsAt(trace, Trace(f), maxMemory, j) && WellNested(Trace(f)[j].frames);
  }

  // ==== Abort ====

  /** Hooks that record nothing and open nothing. */
  ghost predicate Quiet(hooks: seq<Hook>) {
    forall i :: 0 <= i < |hooks| ==> hooks[i].Leave? || (hooks[i].Step? && hooks[i].aborted)
  }

  /** `run` is the first `c` hooks of `full`, then quiet. */
  ghost predicate CutAt(full: seq<Hook>, run: seq<Hook>, c: nat) {
    c <= |full| && c <= |run| && full[..c] == run[..c] && Quiet(run[c..])
  }

  lemma CutInside(pre: seq<Hook>, full: seq<Hook>, run: seq<Hook>, post: seq<Hook>, quiet: seq<Hook>, c: nat)
    requires CutAt(full, run, c) && Quiet(quiet)
    ensures CutAt(pre + full + post, pre + run + quiet, |pre| + c)
  {
    var n := |pre| + c;
    assert (pre + full + post)[..n] == pre + full[..c];
    assert (pre + run + quiet)[..n] == pre + run[..c];
    assert (pre + run + quiet)[n..] == run[c..] + quiet;
  }

  lemma {:induction false} FrameCut(f: Frame, depth: nat, k: nat) returns (c: nat)
    ensures k >= Steps(f) ==> RunFrame(f, depth, k) == (FrameHooks(f, depth), k - Steps(f))
    ensures k < Steps(f) ==> CutAt(FrameHooks(f, depth), RunFrame(f, depth, k).0, c) && RunFrame(f, depth, k).1 == 0
    decreases f, 0
  {
    c := 0;
    if f.body.Interpreted? {
      var code := f.body.code;
      c := CodeCut(code, depth + 1, k);
      var pre, post := [Enter(f.input, depth), InitInterp(f.body.gasLimit)], [Leave(f.input)];
      var full, run := CodeHooks(code, depth + 1), RunCode(code, depth + 1, k).0;
      assert FrameHooks(f, depth) == pre + full + post;
      assert RunFrame(f, depth, k).0 == pre + run + post;
      if k < Steps(f) {
        CutInside(pre, full, run, post, post, c);
        c := |pre| + c;
      }
    }
  }

  lemma {:induction false} InstrCut(i: Instr, depth: nat, k: nat) returns (c: nat)
    requires k > 0
    ensures var n := 1 + Size(ChildCode(i));
      && (k >= n ==> RunInstr(i, depth, k) == (InstrHooks(i, depth), k - n))
      && (k < n ==> CutAt(InstrHooks(i, depth), RunInstr(i, depth, k).0, c) && RunInstr(i, depth, k).1 == 0)
    decreases i, 0
  {
    c := 0;
    if i.child.Some? {
      c := FrameCut(i.child.value, depth, k - 1);
      if k - 1 < Steps(i.child.value) {
        var pre := [Step(i.view, depth, false)] + LogHooks(i.logs);
        CutInside(pre, FrameHooks(i.child.value, depth), RunFrame(i.child.value, depth, k - 1).0, [], [], c);
        assert InstrHooks(i, depth) == pre + FrameHooks(i.child.value, depth) + [];
        assert RunInstr(i, depth, k).0 == pre + RunFrame(i.child.value, depth, k - 1).0 + [];
        c := |pre| + c;
      }
    }
  }

  lemma CutInHead(head: seq<Hook>, run: seq<Hook>, rest: seq<Hook>, quiet: seq<Hook>, c: nat)
    requires CutAt(head, run, c) && Quiet(quiet)
    ensures CutAt(head + rest, run + quiet, c)
  {
    CutInside([], head, run, rest, quiet, c);
    assert [] + head == head && [] + run == run;
  }

  lemma CutInTail(head: seq<Hook>, rest: seq<Hook>, run: seq<Hook>, c: nat)
    requires CutAt(rest, run, c)
    ensures CutAt(head + rest, head + run, |head| + c)
  {
    CutInside(head, rest, run, [], [], c);
    assert head + rest + [] == head + rest && head + run + [] == head + run;
  }

  lemma {:induction false} CodeCut(code: seq<Instr>, depth: nat, k: nat) returns (c: nat)
    ensures k >= Size(code) ==> RunCode(code, depth, k) == (CodeHooks(code, depth), k - Size(code))
    ensures k < Size(code) ==> CutAt(CodeHooks(code, depth), RunCode(code, depth, k).0, c) && RunCode(code, depth, k).1 == 0
    decreases code, 0
  {
    c := 0;
    if code != [] && k > 0 {
      c := InstrCut(code[0], depth, k);
      var head, full := RunInstr(code[0], depth, k), InstrHooks(code[0], depth);
      var rest, tail := CodeHooks(code[1..], depth), RunCode(code[1..], depth, head.1);
      if k < 1 + Size(ChildCode(code[0])) {
        CutInHead(full, head.0, rest, tail.0, c);
      } else {
        c := CodeCut(code[1..], depth, head.1);
        if k < Size(code) {
          CutInTail(full, rest, tail.0, c);
          c := |full| + c;
        }
      }
    }
  }

  lemma {:induction false} QuietRecordsNothing(r: Recorder, hooks: seq<Hook>)
    requires Quiet(hooks)
    ensures ApplyAll(r, hooks).snapshots == r.snapshots
    decreases |hooks|
  {
    if hooks != [] {
      QuietRecordsNothing(Apply(r, hooks[0]), hooks[1..]);
    }
  }

  /** Wherever the flag is first observed, the trace is exactly a prefix of the unaborted
      run's, and the unwinding empties the call stack. */
  lemma AbortGivesPrefix(f: Frame, maxMemory: nat, k: nat)
    ensures Run(f, maxMemory, k).snapshots <= FullTrace(f, maxMemory)
    ensures |Run(f, maxMemory, k).snapshots| == Min(k, Steps(f))
    ensures Run(f, maxMemory, k).callStack == []
  {
    var r0 := NewRecorder(maxMemory);
    RunFollowsTree(f, maxMemory, k);
    RunFollowsTree(f, maxMemory, Steps(f));
    var c := FrameCut(f, 0, k);
    var _ := FrameCut(f, 0, Steps(f));
    if k < Steps(f) {
      var full, run := FrameHooks(f, 0), RunFrame(f, 0, k).0;
      assert run == run[..c] + run[c..];
      ApplyConcat(r0, run[..c], run[c..]);
      QuietRecordsNothing(ApplyAll(r0, run[..c]), run[c..]);
      StreamPrefixRecordsPrefix(r0, full, c);
    }
  }

  /** A replay that dies with an error after `m` hooks, aborted before that or not, also
      leaves a prefix of the full trace. */
  lemma FatalErrorGivesPrefix(f: Frame, maxMemory: nat, k: nat, m: nat)
    requires m <= |RunFrame(f, 0, k).0|
    ensures var died := ApplyAll(NewRecorder(maxMemory), RunFrame(f, 0, k).0[..m]).snapshots;
      died <= FullTrace(f, maxMemory) && Mirrors(died, f, maxMemory)
  {
    AbortGivesPrefix(f, maxMemory, k);
    StreamPrefixRecordsPrefix(NewRecorder(maxMemory), RunFrame(f, 0, k).0, m);
    var died := ApplyAll(NewRecorder(maxMemory), RunFrame(f, 0, k).0[..m]).snapshots;
    assert died == Run(f, maxMemory, k).snapshots[..|died|] == FullTrace(f, maxMemory)[..|died|];
    RunFollowsTree(f, maxMemory, Steps(f));
    PrefixMirrors(FullTrace(f, maxMemory), f, maxMemory, |died|);
  }
}
