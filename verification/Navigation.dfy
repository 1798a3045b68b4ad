/** Laws of the session commands on arbitrary traces. */
module Navigation {
  import opened Types
  import opened Session

  ghost predicate InBounds(data: SessionData) {
    data.Ready? ==> data.currentIndex <= |data.snapshots|
  }

  /** Until an abort a ready session keeps its snapshots and result, and its index only
      moves forward within the trace; after an abort it stays aborted. */
  lemma {:induction false} CommandsOnlyMoveForward(data: SessionData, commands: seq<Command>)
    requires data.Ready? && InBounds(data)
    ensures var end := AfterAll(data, commands);
      if Command.Abort in commands then end == SessionData.Aborted
      else
        && end.Ready? && end.snapshots == data.snapshots && end.result == data.result
        && data.currentIndex <= end.currentIndex <= |data.snapshots|
    decreases |commands|
  {
    if commands != [] {
      var next := After(data, commands[0]);
      if commands[0].Abort? {
        AbortedAbsorbs(next, commands[1..]);
      } else {
        CommandsOnlyMoveForward(next, commands[1..]);
        assert commands == [commands[0]] + commands[1..];
      }
    }
  }

  /** An aborted session answers every state command with Aborted, for ever. */
  lemma {:induction false} AbortedAbsorbs(data: SessionData, commands: seq<Command>)
    requires data.Aborted?
    ensures AfterAll(data, commands) == SessionData.Aborted
    ensures forall n :: 0 <= n < |commands| ==>
      Answers(data, commands)[n] == if commands[n].Abort? then Done
                                    else if commands[n].TraceSteps? then Rows([])
                                    else State(SessionState.Aborted)
    decreases |commands|
  {
    if commands != [] {
      AbortedAbsorbs(After(data, commands[0]), commands[1..]);
    }
  }

  /** At the end of the trace a ready session answers every state command with the result,
      or Aborted when there is none, and stays there; continuing goes there at once. */
  lemma {:induction false} EndIsFixed(data: SessionData, commands: seq<Command>)
    requires data.Ready? && Command.Abort !in commands
    ensures var end := After(data, Continue);
      && AfterAll(end, commands) == end
      && forall n :: 0 <= n < |commands| && !commands[n].TraceSteps? ==>
           Answers(end, commands)[n]
           == State(if data.result.Some? then SessionState.Finished(data.result.value) else SessionState.Aborted)
    decreases |commands|
  {
    if commands != [] {
      assert commands == [commands[0]] + commands[1..];
      EndIsFixed(data, commands[1..]);
      assert After(After(data, Continue), commands[0]) == After(data, Continue);
    }
  }

  // ---- Step over against step into ----

  function Repeat(command: Command, n: nat): seq<Command> {
    seq(n, i requires 0 <= i < n => command)
  }

  lemma {:induction false} StepIntos(data: SessionData, n: nat)
    requires data.Ready? && InBounds(data)
    ensures AfterAll(data, Repeat(StepInto, n))
            == data.(currentIndex := Min(data.currentIndex + n, |data.snapshots|))
    decreases n
  {
    if n > 0 {
      assert Repeat(StepInto, n)[1..] == Repeat(StepInto, n - 1);
      StepIntos(After(data, StepInto), n - 1);
    }
  }

  /** `n` step-intos have come back to depth at most `depth`, or to the end. */
  ghost predicate BackAt(data: SessionData, n: nat, depth: nat)
    requires data.Ready?
  {
    var there := AfterAll(data, Repeat(StepInto, n));
    there.Ready? && (there.currentIndex < |data.snapshots| ==> data.snapshots[there.currentIndex].callDepth <= depth)
  }

  /** Before the end, stepping over is the least positive number of step-intos that
      returns to the starting depth or shallower, or ends the trace. */
  lemma {:induction false} StepOverIsLeastReturn(data: SessionData) returns (n: nat)
    requires data.Ready? && data.currentIndex < |data.snapshots|
    ensures var depth := data.snapshots[data.currentIndex].callDepth;
      && n > 0
      && After(data, StepOver) == AfterAll(data, Repeat(StepInto, n))
      && BackAt(data, n, depth)
      && forall m :: 0 < m < n ==> !BackAt(data, m, depth)
  {
    var i, depth := data.currentIndex, data.snapshots[data.currentIndex].callDepth;
    n := StepOverIndex(data.snapshots, i) - i;
    StepIntos(data, n);
    forall m | 0 < m < n
      ensures !BackAt(data, m, depth)
    {
      StepIntos(data, m);
      assert data.snapshots[i + m].callDepth > depth;
    }
  }

  /** Skipped stretches nest or are disjoint, they never cross. */
  lemma SkipsNeverCross(snapshots: seq<StepSnapshot>, i: nat, j: nat)
    requires i < j < StepOverIndex(snapshots, i)
    ensures j < |snapshots| && StepOverIndex(snapshots, j) <= StepOverIndex(snapshots, i)
  {
    var e := StepOverIndex(snapshots, i);
    assert snapshots[j].callDepth > snapshots[i].callDepth;
    assert e < |snapshots| ==> snapshots[e].callDepth < snapshots[j].callDepth;
  }

  /** Stepping over never goes deeper. */
  lemma StepOverNeverDeepens(snapshots: seq<StepSnapshot>, i: nat)
    requires i < |snapshots|
    ensures var e := StepOverIndex(snapshots, i);
      i < e <= |snapshots| && (e < |snapshots| ==> snapshots[e].callDepth <= snapshots[i].callDepth)
  {
  }

  /** What the scan returns is the only index its three properties allow. */
  lemma ScanIsUnique(snapshots: seq<StepSnapshot>, depth: nat, j: nat, e: nat)
    requires j <= e <= |snapshots|
    requires e < |snapshots| ==> snapshots[e].callDepth <= depth
    requires forall i :: j <= i < e ==> snapshots[i].callDepth > depth
    ensures ScanTo(snapshots, depth, j) == e
  {
    var s := ScanTo(snapshots, depth, j);
    assert s < |snapshots| ==> snapshots[s].callDepth <= depth;
    assert e < |snapshots| ==> snapshots[e].callDepth <= depth;
  }

  /** On a trace cut short, stepping over does what it did on the whole trace, up to
      the cut. */
  lemma StepOverOnPrefix(snapshots: seq<StepSnapshot>, m: nat, i: nat)
    requires i < m <= |snapshots|
    ensures StepOverIndex(snapshots[..m], i) == Min(StepOverIndex(snapshots, i), m)
  {
    ScanIsUnique(snapshots[..m], snapshots[i].callDepth, i + 1, Min(StepOverIndex(snapshots, i), m));
  }

  // ---- Answers ----

  /** Every state command answers with the state it leaves: Loading, the error and Aborted
      by name, else the snapshot at the new index, and at the end the result or Aborted.
      Steps move a ready session's index and nothing else. */
  lemma AnswersTellTheState(data: SessionData, command: Command)
    requires !command.Abort? && !command.TraceSteps?
    ensures Answer(data, command).State? && Tells(Answer(data, command).state, After(data, command))
    ensures !data.Ready? ==> After(data, command) == data
    ensures data.Ready? ==>
      var (i, n, data') := (data.currentIndex, |data.snapshots|, After(data, command));
      && data' == data.(currentIndex := data'.currentIndex)
      && (command.Poll? ==> data'.currentIndex == i)
      && (command.StepInto? ==> data'.currentIndex == if i < n then i + 1 else n)
      && (command.Continue? ==> data'.currentIndex == n)
      && (command.StepOver? && i < n ==>
            && i < data'.currentIndex <= n
            && (forall j :: i < j < data'.currentIndex ==> data.snapshots[j].callDepth > data.snapshots[i].callDepth)
            && (data'.currentIndex < n ==> data.snapshots[data'.currentIndex].callDepth <= data.snapshots[i].callDepth))
      && (command.StepOver? && i >= n ==> data'.currentIndex == i)
  {
  }

  // ---- First readiness ----

  /** What `wait_for_snapshots` returns is what a poll in the same critical section would
      show, except for an empty trace without a result. */
  lemma FirstAnswerMatchesPoll(data: SessionData, message: ChannelMessage)
    ensures StoreAnswer(data, message) == CurrentState(StoreMessage(data, message))
      <==> data.Aborted? || message != AllSnapshots([], None)
  {
  }

  // ---- Rows ----

  /** On a trace numbered in order, the paused snapshot's number picks exactly the row at
      the current index. */
  lemma PausedRowIsUnique(data: SessionData, row: nat)
    requires data.Ready? && data.currentIndex < |data.snapshots|
    requires forall n :: 0 <= n < |data.snapshots| ==> data.snapshots[n].stepNumber == n
    ensures |TraceRows(data)| == |data.snapshots|
    ensures CurrentState(data).Paused?
    ensures var paused := CurrentState(data).snapshot;
      TraceRows(data)[data.currentIndex]
      == TraceStep(paused.stepNumber, paused.pc, paused.opcode, paused.opcodeName)
    ensures row < |TraceRows(data)| ==>
      (TraceRows(data)[row].step == CurrentState(data).snapshot.stepNumber <==> row == data.currentIndex)
  {
  }

  // ---- Cache round trip ----

  /** Whatever commands moved a ready session before it was saved, the file restores the
      session as it first became ready; an aborted one saves nothing. */
  lemma SavedFileForgetsMoves(data: SessionData, commands: seq<Command>)
    requires data.Ready? && data.currentIndex == 0
    ensures match ForCache(AfterAll(data, commands))
            case Some(file) => FromCache(file) == data && Command.Abort !in commands
            case None => Command.Abort in commands
  {
    CommandsOnlyMoveForward(data, commands);
  }
}
