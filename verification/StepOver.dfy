/** The navigator's depth scan, run on what the recorder stored, steps over calls in the
    sense of the call tree. */
module StepOver {
  import opened Types
  import opened CallTree
  import opened TreePaths
  import opened Inspector
  import opened Recording
  import opened Session
  import opened Navigation

  // ---- Visits by path ----

  /** The ambient state before the k-th instruction of `code`. */
  ghost function AmbientBefore(code: seq<Instr>, k: nat, amb: Ambient): Ambient
    requires k <= |code|
  {
    if k == 0 then amb else AfterInstr(code[k - 1], AmbientBefore(code, k - 1, amb))
  }

  lemma VisitsSplit(code: seq<Instr>, frames: seq<CallFrame>, amb: Ambient)
    requires code != []
    ensures Visits(code, frames, amb)
            == InstrVisits(code[0], frames, amb) + Visits(code[1..], frames, AfterInstr(code[0], amb))
  {
  }

  lemma DropHead(visits: seq<Visit>, n: nat, head: seq<Visit>, rest: seq<Visit>)
    requires n <= |visits| && visits[n..] == head + rest
    ensures n + |head| <= |visits| && visits[n + |head|..] == rest
  {
    assert visits[n..][|head|..] == rest;
  }

  lemma ItemOfHead(visits: seq<Visit>, n: nat, head: seq<Visit>, rest: seq<Visit>, j: nat)
    requires n <= |visits| && visits[n..] == head + rest && j < |head|
    ensures n + j < |visits| && visits[n + j] == head[j]
  {
    assert visits[n..][j] == head[j];
  }

  /** From the k-th instruction on, the visits are those of the rest of `code`. */
  lemma {:induction false} VisitsFrom(code: seq<Instr>, k: nat, frames: seq<CallFrame>, amb: Ambient)
    requires k <= |code|
    ensures Before(code, k) <= Size(code)
    ensures Visits(code, frames, amb)[Before(code, k)..] == Visits(code[k..], frames, AmbientBefore(code, k, amb))
  {
    if k == 0 {
      assert code[0..] == code;
    } else {
      var rest, mid := code[k - 1..], AmbientBefore(code, k - 1, amb);
      VisitsFrom(code, k - 1, frames, amb);
      VisitsSplit(rest, frames, mid);
      assert rest[1..] == code[k..];
      DropHead(Visits(code, frames, amb), Before(code, k - 1),
               InstrVisits(rest[0], frames, mid), Visits(rest[1..], frames, AfterInstr(rest[0], mid)));
    }
  }

  lemma VisitsFromInstr(code: seq<Instr>, k: nat, frames: seq<CallFrame>, amb: Ambient)
    requires k < |code|
    ensures var mid := AmbientBefore(code, k, amb);
      && Before(code, k) <= Size(code)
      && Visits(code, frames, amb)[Before(code, k)..]
         == InstrVisits(code[k], frames, mid) + Visits(code[k..][1..], frames, AfterInstr(code[k], mid))
  {
    VisitsFrom(code, k, frames, amb);
    VisitsSplit(code[k..], frames, AmbientBefore(code, k, amb));
  }

  /** The visits of the k-th instruction, its callee's included, sit together. */
  lemma VisitsOfInstr(code: seq<Instr>, k: nat, frames: seq<CallFrame>, amb: Ambient, j: nat)
    requires k < |code| && j < 1 + Size(ChildCode(code[k]))
    ensures Before(code, k) + j < Size(code)
    ensures Visits(code, frames, amb)[Before(code, k) + j]
            == InstrVisits(code[k], frames, AmbientBefore(code, k, amb))[j]
  {
    var whole, n, mid := Visits(code, frames, amb), Before(code, k), AmbientBefore(code, k, amb);
    var head, rest := InstrVisits(code[k], frames, mid), Visits(code[k..][1..], frames, AfterInstr(code[k], mid));
    assert n <= |whole| && whole[n..] == head + rest by {
      VisitsFromInstr(code, k, frames, amb);
    }
    ItemOfHead(whole, n, head, rest, j);
  }

  function InnerFrames(i: Instr, frames: seq<CallFrame>): seq<CallFrame>
    requires HasCode(i)
  {
    frames + [FrameRecord(i.child.value.input, |frames|)]
  }

  function InnerAmbient(i: Instr, amb: Ambient): Ambient
    requires HasCode(i)
  {
    Ambient(i.child.value.body.gasLimit, amb.logs + i.logs)
  }

  /** The frames open around the instruction at `p`, outermost first. */
  ghost function FramesAt(code: seq<Instr>, p: Path, frames: seq<CallFrame>): (r: seq<CallFrame>)
    requires Valid(code, p)
    ensures |r| == |frames| + Depth(p) - 1
    decreases p
  {
    if p.At? then frames
    else FramesAt(ChildCode(code[p.index]), p.inner, InnerFrames(code[p.index], frames))
  }

  /** The ambient state in which the instruction at `p` executes. */
  ghost function AmbientAt(code: seq<Instr>, p: Path, amb: Ambient): Ambient
    requires Valid(code, p)
    decreases p
  {
    var mid := AmbientBefore(code, p.index, amb);
    if p.At? then mid else AmbientAt(ChildCode(code[p.index]), p.inner, InnerAmbient(code[p.index], mid))
  }

  /** Where the j-th step of its callee sits. */
  lemma VisitOfCallee(code: seq<Instr>, k: nat, frames: seq<CallFrame>, amb: Ambient, j: nat)
    requires k < |code| && HasCode(code[k]) && j < Size(ChildCode(code[k]))
    ensures Before(code, k) + 1 + j < Size(code)
    ensures Visits(code, frames, amb)[Before(code, k) + 1 + j]
            == Visits(ChildCode(code[k]), InnerFrames(code[k], frames),
                      InnerAmbient(code[k], AmbientBefore(code, k, amb)))[j]
  {
    VisitsOfInstr(code, k, frames, amb, 1 + j);
  }

  /** The instruction at `p` is visited at its position, in its own frames and ambient state. */
  ghost predicate VisitedAt(code: seq<Instr>, p: Path, frames: seq<CallFrame>, amb: Ambient)
    requires Valid(code, p)
  {
    && Position(code, p) < Size(code)
    && Visits(code, frames, amb)[Position(code, p)]
       == Visit(InstrAt(code, p).view, FramesAt(code, p, frames), AmbientAt(code, p, amb))
  }

  lemma VisitedInside(code: seq<Instr>, p: Path, frames: seq<CallFrame>, amb: Ambient)
    requires Valid(code, p) && p.Inside?
    requires VisitedAt(ChildCode(code[p.index]), p.inner, InnerFrames(code[p.index], frames),
                       InnerAmbient(code[p.index], AmbientBefore(code, p.index, amb)))
    ensures VisitedAt(code, p, frames, amb)
  {
    var callee, j := ChildCode(code[p.index]), Position(ChildCode(code[p.index]), p.inner);
    assert Position(code, p) == Before(code, p.index) + 1 + j && InstrAt(code, p) == InstrAt(callee, p.inner);
    VisitOfCallee(code, p.index, frames, amb, j);
  }

  lemma {:induction false} VisitAtPosition(code: seq<Instr>, p: Path, frames: seq<CallFrame>, amb: Ambient)
    requires Valid(code, p)
    ensures VisitedAt(code, p, frames, amb)
    decreases p
  {
    if p.At? {
      VisitsOfInstr(code, p.index, frames, amb, 0);
    } else {
      var i := code[p.index];
      VisitAtPosition(ChildCode(i), p.inner, InnerFrames(i, frames),
                      InnerAmbient(i, AmbientBefore(code, p.index, amb)));
      VisitedInside(code, p, frames, amb);
    }
  }

  // ---- The scan on a recorded trace ----

  lemma SnapshotAtPath(trace: seq<StepSnapshot>, f: Frame, maxMemory: nat, p: Path)
    requires Mirrors(trace, f, maxMemory) && f.body.Interpreted? && Valid(f.body.code, p)
    requires Position(f.body.code, p) < |trace|
    ensures var root := [FrameRecord(f.input, 0)];
      Shows(trace[Position(f.body.code, p)],
            Visit(InstrAt(f.body.code, p).view, FramesAt(f.body.code, p, root),
                  AmbientAt(f.body.code, p, Ambient(f.body.gasLimit, []))), maxMemory)
    ensures trace[Position(f.body.code, p)].callDepth == Depth(p)
  {
    VisitAtPosition(f.body.code, p, [FrameRecord(f.input, 0)], Ambient(f.body.gasLimit, []));
    assert ShowsAt(trace, Trace(f), maxMemory, Position(f.body.code, p));
  }

  lemma CalleeSnapshotIsDeeper(trace: seq<StepSnapshot>, f: Frame, maxMemory: nat, p: Path, j: nat)
    requires Mirrors(trace, f, maxMemory) && f.body.Interpreted? && Valid(f.body.code, p)
    requires Position(f.body.code, p) < j < EndOf(f.body.code, p) && j < |trace|
    ensures trace[j].callDepth > Depth(p)
  {
    PathAtPosition(f.body.code, j);
    CalleeIsDeeper(f.body.code, p, PathAt(f.body.code, j));
    SnapshotAtPath(trace, f, maxMemory, PathAt(f.body.code, j));
  }

  /** A step that starts where a call ended is no deeper than the call. */
  lemma EndSnapshotIsNoDeeper(trace: seq<StepSnapshot>, f: Frame, maxMemory: nat, p: Path)
    requires Mirrors(trace, f, maxMemory) && f.body.Interpreted? && Valid(f.body.code, p)
    requires EndOf(f.body.code, p) < |trace|
    ensures trace[EndOf(f.body.code, p)].callDepth <= Depth(p)
  {
    TargetIsEnd(f.body.code, p);
    SnapshotAtPath(trace, f, maxMemory, StepOverTarget(f.body.code, p).value);
  }

  /** The scan stops exactly where the call ends, or where the trace was cut. */
  lemma StepOverReachesEnd(trace: seq<StepSnapshot>, f: Frame, maxMemory: nat, p: Path)
    requires Mirrors(trace, f, maxMemory) && f.body.Interpreted? && Valid(f.body.code, p)
    requires Position(f.body.code, p) < |trace|
    ensures StepOverIndex(trace, Position(f.body.code, p)) == Min(EndOf(f.body.code, p), |trace|)
  {
    var i, e := Position(f.body.code, p), EndOf(f.body.code, p);
    SnapshotAtPath(trace, f, maxMemory, p);
    forall j | i + 1 <= j < Min(e, |trace|)
      ensures trace[j].callDepth > Depth(p)
    {
      CalleeSnapshotIsDeeper(trace, f, maxMemory, p, j);
    }
    if e < |trace| {
      EndSnapshotIsNoDeeper(trace, f, maxMemory, p);
    }
    ScanIsUnique(trace, Depth(p), i + 1, Min(e, |trace|));
  }

  /** Where stepping over the instruction at `p` must land in a trace of `length` steps. */
  ghost function Landing(code: seq<Instr>, p: Path, length: nat): nat
    requires Valid(code, p)
  {
    match StepOverTarget(code, p)
    case Some(q) => TargetIsEnd(code, p); Min(Position(code, q), length)
    case None => length
  }

  /** On the trace of any call tree, whole or cut short, stepping over an instruction
      lands on the next instruction of its own frame; failing that, of the nearest caller
      that has one; failing that, at the end. */
  lemma StepOverFollowsTree(trace: seq<StepSnapshot>, f: Frame, maxMemory: nat, p: Path)
    requires Mirrors(trace, f, maxMemory) && f.body.Interpreted? && Valid(f.body.code, p)
    requires Position(f.body.code, p) < |trace|
    ensures StepOverIndex(trace, Position(f.body.code, p)) == Landing(f.body.code, p, |trace|)
  {
    StepOverReachesEnd(trace, f, maxMemory, p);
    TargetIsEnd(f.body.code, p);
  }

  lemma StepOverCountsCallee(trace: seq<StepSnapshot>, f: Frame, maxMemory: nat, p: Path)
    requires Mirrors(trace, f, maxMemory) && f.body.Interpreted? && Valid(f.body.code, p)
    requires Position(f.body.code, p) < |trace|
    ensures var i := Position(f.body.code, p);
      StepOverIndex(trace, i) == Min(i + 1 + Size(ChildCode(InstrAt(f.body.code, p))), |trace|)
  {
    StepOverReachesEnd(trace, f, maxMemory, p);
    EndCountsCallee(f.body.code, p);
  }

  lemma IndexIsAStep(trace: seq<StepSnapshot>, f: Frame, maxMemory: nat, i: nat)
    requires Mirrors(trace, f, maxMemory) && i < |trace|
    ensures f.body.Interpreted? && i < Steps(f) == Size(f.body.code)
  {
  }

  /** Every snapshot is covered: index `i` is the instruction at `PathAt(code, i)` and at
      no other address, and what step over skips from it is exactly the callee's steps. */
  lemma StepOverFromAnyIndex(trace: seq<StepSnapshot>, f: Frame, maxMemory: nat, i: nat)
    requires Mirrors(trace, f, maxMemory) && i < |trace|
    ensures f.body.Interpreted? && i < Steps(f)
    ensures var (code, p) := (f.body.code, PathAt(f.body.code, i));
      && OnlyPathAt(code, p, i) && Valid(code, p) && Position(code, p) == i
      && StepOverIndex(trace, i) == Landing(code, p, |trace|)
      && StepOverIndex(trace, i) == Min(i + 1 + Size(ChildCode(InstrAt(code, p))), |trace|)
  {
    IndexIsAStep(trace, f, maxMemory, i);
    var p := PathAt(f.body.code, i);
    OnlyPathAtPosition(f.body.code, i);
    assert StepOverIndex(trace, i) == Landing(f.body.code, p, |trace|) by {
      StepOverFollowsTree(trace, f, maxMemory, p);
    }
    assert StepOverIndex(trace, i) == Min(i + 1 + Size(ChildCode(InstrAt(f.body.code, p))), |trace|) by {
      StepOverCountsCallee(trace, f, maxMemory, p);
    }
  }

  /** In particular for what the recorder leaves when the abort flag first reads true at
      the `k`-th step, or never. */
  lemma RecorderAndNavigatorAgree(f: Frame, maxMemory: nat, k: nat, i: nat)
    requires i < Min(k, Steps(f))
    ensures var (trace, p) := (Run(f, maxMemory, k).snapshots, PathAt(FrameCode(f), i));
      && |trace| == Min(k, Steps(f))
      && Valid(FrameCode(f), p) && Position(FrameCode(f), p) == i
      && StepOverIndex(trace, i) == Landing(FrameCode(f), p, |trace|)
  {
    RunFollowsTree(f, maxMemory, k);
    StepOverFromAnyIndex(Run(f, maxMemory, k).snapshots, f, maxMemory, i);
  }

  // ---- Same depth means same frame ----

  lemma {:induction false} SiblingFrames(code: seq<Instr>, p: Path, frames: seq<CallFrame>)
    requires Valid(code, p) && Valid(code, Sibling(p))
    ensures FramesAt(code, Sibling(p), frames) == FramesAt(code, p, frames)
    decreases p
  {
    if p.Inside? {
      SiblingFrames(ChildCode(code[p.index]), p.inner, InnerFrames(code[p.index], frames));
    }
  }

  lemma TargetAtSameDepthIsSibling(code: seq<Instr>, p: Path)
    requires Valid(code, p) && StepOverTarget(code, p).Some? && Depth(StepOverTarget(code, p).value) >= Depth(p)
    ensures StepOverTarget(code, p).value == Sibling(p) && Valid(code, Sibling(p))
  {
    if !Valid(code, Sibling(p)) && p.Inside? {
      LastEndsWithCaller(code, p);
      TargetIsEnd(code, Caller(p));
    }
  }

  /** Landing at the depth it left, step over shows the very same call stack. */
  lemma StepOverKeepsCallStack(trace: seq<StepSnapshot>, f: Frame, maxMemory: nat, i: nat)
    requires Mirrors(trace, f, maxMemory) && i < |trace|
    ensures var e := StepOverIndex(trace, i);
      e < |trace| && trace[e].callDepth == trace[i].callDepth ==> trace[e].callStack == trace[i].callStack
  {
    StepOverFromAnyIndex(trace, f, maxMemory, i);
    var code, p, e := f.body.code, PathAt(f.body.code, i), StepOverIndex(trace, i);
    SnapshotAtPath(trace, f, maxMemory, p);
    TargetIsEnd(code, p);
    if e < |trace| && trace[e].callDepth == trace[i].callDepth {
      SnapshotAtPath(trace, f, maxMemory, StepOverTarget(code, p).value);
      TargetAtSameDepthIsSibling(code, p);
      SiblingFrames(code, p, [FrameRecord(f.input, 0)]);
    }
  }

  // ---- Stepping over from the start ----

  function StepOverTimes(snapshots: seq<StepSnapshot>, n: nat): nat {
    if n == 0 then 0 else StepOverIndex(snapshots, StepOverTimes(snapshots, n - 1))
  }

  /** From index 0 the n-th step over is on the root frame's n-th own instruction, or at
      the end once the trace or the frame has none left. */
  lemma {:induction false} StepOverWalksRootFrame(trace: seq<StepSnapshot>, f: Frame, maxMemory: nat, n: nat)
    requires Mirrors(trace, f, maxMemory) && f.body.Interpreted? && n <= |f.body.code|
    ensures StepOverTimes(trace, n) == Min(Before(f.body.code, n), |trace|)
    ensures n < |f.body.code| ==> Before(f.body.code, n) == Position(f.body.code, At(n))
    ensures n == |f.body.code| ==> StepOverTimes(trace, n) == |trace|
  {
    BeforeAll(f.body.code);
    if n > 0 {
      StepOverWalksRootFrame(trace, f, maxMemory, n - 1);
      if Before(f.body.code, n - 1) < |trace| {
        StepOverReachesEnd(trace, f, maxMemory, At(n - 1));
      }
    }
  }

  // ---- Rows ----

  /** On a recorded trace the paused snapshot's number selects exactly the row at the
      session's index. */
  lemma RecordedRowIsUnique(
      f: Frame, maxMemory: nat, k: nat, index: nat, result: Option<ExecutionResultInfo>, row: nat)
    requires index < Min(k, Steps(f)) && row < Min(k, Steps(f))
    ensures var data := SessionData.Ready(Run(f, maxMemory, k).snapshots, index, result);
      && |TraceRows(data)| == Min(k, Steps(f))
      && CurrentState(data).Paused?
      && TraceRows(data)[index].pc == CurrentState(data).snapshot.pc
      && TraceRows(data)[index].opcode == CurrentState(data).snapshot.opcode
      && (TraceRows(data)[row].step == CurrentState(data).snapshot.stepNumber <==> row == index)
  {
    RunFollowsTree(f, maxMemory, k);
    StorageIsReplayable(maxMemory, RunFrame(f, 0, k).0);
    PausedRowIsUnique(SessionData.Ready(Run(f, maxMemory, k).snapshots, index, result), row);
  }

  // ---- Gas ----

  /** The gas limit of the frame the instruction at `p` runs in. */
  ghost function OwnLimit(code: seq<Instr>, p: Path, limit: U64): U64
    requires Valid(code, p)
    decreases p
  {
    if p.At? then limit else OwnLimit(ChildCode(code[p.index]), p.inner, code[p.index].child.value.body.gasLimit)
  }

  /** No earlier instruction of that frame opened an interpreted frame. */
  ghost predicate NoCallBefore(code: seq<Instr>, p: Path)
    requires Valid(code, p)
    decreases p
  {
    if p.At? then forall i :: 0 <= i < p.index ==> !HasCode(code[i])
    else NoCallBefore(ChildCode(code[p.index]), p.inner)
  }

  lemma {:induction false} NoCallKeepsGas(code: seq<Instr>, k: nat, amb: Ambient)
    requires k <= |code| && forall i :: 0 <= i < k ==> !HasCode(code[i])
    ensures AmbientBefore(code, k, amb).gas == amb.gas
  {
    if k > 0 {
      NoCallKeepsGas(code, k - 1, amb);
    }
  }

  lemma {:induction false} NoCallMeansOwnLimit(code: seq<Instr>, p: Path, amb: Ambient)
    requires Valid(code, p) && NoCallBefore(code, p)
    ensures AmbientAt(code, p, amb).gas == OwnLimit(code, p, amb.gas)
    decreases p
  {
    if p.At? {
      NoCallKeepsGas(code, p.index, amb);
    } else {
      var mid := AmbientBefore(code, p.index, amb);
      NoCallMeansOwnLimit(ChildCode(code[p.index]), p.inner, InnerAmbient(code[p.index], mid));
    }
  }

  /** `gas_used` counts from the limit of the interpreter initialised last. That is the
      frame's own consumption while the frame has had no interpreted callee; in general,
      exactly when that limit is the frame's own or both lie below the gas remaining. */
  lemma GasUsedCountsFromLastInit(trace: seq<StepSnapshot>, f: Frame, maxMemory: nat, p: Path)
    requires Mirrors(trace, f, maxMemory) && f.body.Interpreted? && Valid(f.body.code, p)
    requires Position(f.body.code, p) < |trace|
    ensures var s := trace[Position(f.body.code, p)];
      var own := OwnLimit(f.body.code, p, f.body.gasLimit);
      var last := AmbientAt(f.body.code, p, Ambient(f.body.gasLimit, [])).gas;
      && s.gasUsed == SaturatingSub(last, s.gasRemaining)
      && s.gasUsed == (if last >= s.gasRemaining then last - s.gasRemaining else 0)
      && (NoCallBefore(f.body.code, p) ==> s.gasUsed == SaturatingSub(own, s.gasRemaining))
      && (s.gasUsed == SaturatingSub(own, s.gasRemaining)
          <==> last == own || (last <= s.gasRemaining && own <= s.gasRemaining))
  {
    SnapshotAtPath(trace, f, maxMemory, p);
    if NoCallBefore(f.body.code, p) {
      NoCallMeansOwnLimit(f.body.code, p, Ambient(f.body.gasLimit, []));
    }
  }

  /** Every interpreted callee's gas limit lies strictly below its caller's, as the EVM's
      own rule for forwarding gas (EIP-150) has it. */
  ghost predicate LimitsFall(code: seq<Instr>, limit: U64)
    decreases code
  {
    forall k :: 0 <= k < |code| ==> HasCode(code[k]) ==>
      var callee := code[k].child.value.body;
      callee.gasLimit < limit && LimitsFall(callee.code, callee.gasLimit)
  }

  lemma {:induction false} CallLowersGas(i: Instr, amb: Ambient, limit: U64)
    requires HasCode(i) && i.child.value.body.gasLimit < limit
    requires LimitsFall(i.child.value.body.code, i.child.value.body.gasLimit)
    ensures AfterInstr(i, amb).gas < limit
    decreases i
  {
    var callee := i.child.value.body;
    CodeKeepsGasLow(callee.code, Ambient(callee.gasLimit, amb.logs + i.logs), callee.gasLimit);
  }

  lemma {:induction false} CodeKeepsGasLow(code: seq<Instr>, amb: Ambient, limit: U64)
    requires LimitsFall(code, limit) && amb.gas <= limit
    ensures AfterCode(code, amb).gas <= limit
    decreases code
  {
    if code != [] {
      if HasCode(code[0]) {
        CallLowersGas(code[0], amb, limit);
      }
      assert forall k :: 0 <= k < |code[1..]| ==> code[1..][k] == code[k + 1];
      CodeKeepsGasLow(code[1..], AfterInstr(code[0], amb), limit);
    }
  }

  lemma {:induction false} OnlyCallsLowerGas(code: seq<Instr>, k: nat, amb: Ambient)
    requires LimitsFall(code, amb.gas) && k <= |code|
    ensures AmbientBefore(code, k, amb).gas <= amb.gas
    ensures AmbientBefore(code, k, amb).gas == amb.gas <==> forall i :: 0 <= i < k ==> !HasCode(code[i])
  {
    if k > 0 {
      OnlyCallsLowerGas(code, k - 1, amb);
      if HasCode(code[k - 1]) {
        CallLowersGas(code[k - 1], AmbientBefore(code, k - 1, amb), amb.gas);
      }
    }
  }

  /** When limits fall, the interpreter initialised last has the frame's own limit exactly
      as long as the frame has had no interpreted callee, and a smaller one afterwards. */
  lemma {:induction false} OwnLimitExactlyBeforeCalls(code: seq<Instr>, p: Path, amb: Ambient)
    requires Valid(code, p) && LimitsFall(code, amb.gas)
    ensures AmbientAt(code, p, amb).gas <= OwnLimit(code, p, amb.gas)
    ensures AmbientAt(code, p, amb).gas == OwnLimit(code, p, amb.gas) <==> NoCallBefore(code, p)
    decreases p
  {
    if p.At? {
      OnlyCallsLowerGas(code, p.index, amb);
    } else {
      var mid := AmbientBefore(code, p.index, amb);
      OwnLimitExactlyBeforeCalls(ChildCode(code[p.index]), p.inner, InnerAmbient(code[p.index], mid));
    }
  }

  /** `gas_used` is the frame's own consumption exactly while the frame has had no
      interpreted callee, or has consumed nothing; after a callee it is always less. */
  lemma GasUsedRightExactlyBeforeCalls(trace: seq<StepSnapshot>, f: Frame, maxMemory: nat, p: Path)
    requires Mirrors(trace, f, maxMemory) && f.body.Interpreted? && Valid(f.body.code, p)
    requires Position(f.body.code, p) < |trace| && LimitsFall(f.body.code, f.body.gasLimit)
    ensures var s := trace[Position(f.body.code, p)];
      var own := OwnLimit(f.body.code, p, f.body.gasLimit);
      && (s.gasUsed == SaturatingSub(own, s.gasRemaining)
          <==> NoCallBefore(f.body.code, p) || own <= s.gasRemaining)
      && (own > s.gasRemaining ==>
            s.gasUsed <= own - s.gasRemaining
            && (s.gasUsed == own - s.gasRemaining <==> NoCallBefore(f.body.code, p)))
  {
    GasUsedCountsFromLastInit(trace, f, maxMemory, p);
    OwnLimitExactlyBeforeCalls(f.body.code, p, Ambient(f.body.gasLimit, []));
  }

  function PlainView(gasRemaining: U64): InterpView {
    InterpView(0, 0, None, gasRemaining, [], [])
  }

  /** A frame with limit 100 that calls one with limit 10. */
  function AfterCallExample(): Frame {
    var input := CallInput(CallScheme.Call, "0xa", "0xb", "0x0");
    var callee := Frame(input, Interpreted(10, [Instr(PlainView(10), [], None)]));
    Frame(input, Interpreted(100, [Instr(PlainView(90), [], Some(callee)), Instr(PlainView(50), [], None)]))
  }

  /** Once a callee has returned, the caller's own consumption of 50 is shown as 0. */
  lemma GasUsedWrongAfterCall()
    ensures var f := AfterCallExample();
      && Valid(f.body.code, At(1)) && !NoCallBefore(f.body.code, At(1))
      && Position(f.body.code, At(1)) == 2 < |FullTrace(f, 0)|
      && FullTrace(f, 0)[2].gasUsed == 0
      && SaturatingSub(OwnLimit(f.body.code, At(1), f.body.gasLimit), FullTrace(f, 0)[2].gasRemaining) == 50
  {
    var f := AfterCallExample();
    var code, callee := f.body.code, ChildCode(f.body.code[0]);
    assert callee[1..] == [] && Size(callee) == 1;
    assert Before(code, 1) == 2;
    BeforeAll(code);
    RunFollowsTree(f, 0, Steps(f));
    SnapshotAtPath(FullTrace(f, 0), f, 0, At(1));
    assert AmbientBefore(code, 1, Ambient(100, [])) == AfterInstr(code[0], Ambient(100, []));
    assert AfterInstr(callee[0], Ambient(10, [])) == Ambient(10, []);
  }
}
