/** Debug sessions (`src/session.rs`): a four-state value behind a mutex, with an index
    into an immutable snapshot list. */
module Session {
  import opened Types

  datatype SessionData =
    | Loading
    | Ready(snapshots: seq<StepSnapshot>, currentIndex: nat, result: Option<ExecutionResultInfo>)
    | Aborted
    | Error(message: string)

  // ==== What each operation computes ====

  function StateAt(snapshots: seq<StepSnapshot>, index: nat, result: Option<ExecutionResultInfo>): SessionState {
    if index < |snapshots| then SessionState.Paused(snapshots[index])
    else match result
         case Some(r) => SessionState.Finished(r)
         case None => SessionState.Aborted
  }

  function CurrentState(data: SessionData): SessionState {
    match data
    case Loading => SessionState.Loading
    case Ready(snapshots, index, result) => StateAt(snapshots, index, result)
    case Aborted => SessionState.Aborted
    case Error(message) => SessionState.Error(message)
  }

  /** The answer a client must get: the state by name, the snapshot at the index, and past
      the last one the result, or Aborted when there is none. */
  predicate Tells(state: SessionState, data: SessionData) {
    && (data.Loading? ==> state == SessionState.Loading)
    && (data.Aborted? ==> state == SessionState.Aborted)
    && (data.Error? ==> state == SessionState.Error(data.message))
    && (data.Ready? && data.currentIndex < |data.snapshots| ==>
          state == SessionState.Paused(data.snapshots[data.currentIndex]))
    && (data.Ready? && data.currentIndex >= |data.snapshots| && data.result.Some? ==>
          state == SessionState.Finished(data.result.value))
    && (data.Ready? && data.currentIndex >= |data.snapshots| && data.result.None? ==> state == SessionState.Aborted)
  }

  function TraceRows(data: SessionData): (rows: seq<TraceStep>)
  {
    match data
    case Ready(snapshots, _, _) =>
      seq(|snapshots|, i requires 0 <= i < |snapshots| =>
        TraceStep(snapshots[i].stepNumber, snapshots[i].pc, snapshots[i].opcode, snapshots[i].opcodeName))
    case _ => []
  }

  /** The first index from `j` on whose depth is at most `depth`, or the end. */
  function ScanTo(snapshots: seq<StepSnapshot>, depth: nat, j: nat): (e: nat)
    requires j <= |snapshots|
    ensures j <= e <= |snapshots|
    ensures e < |snapshots| ==> snapshots[e].callDepth <= depth
    ensures forall i :: j <= i < e ==> snapshots[i].callDepth > depth
    decreases |snapshots| - j
  {
    if j < |snapshots| && snapshots[j].callDepth > depth then ScanTo(snapshots, depth, j + 1) else j
  }

  function StepIntoIndex(snapshots: seq<StepSnapshot>, i: nat): nat {
    Min(i + 1, |snapshots|)
  }

  function StepOverIndex(snapshots: seq<StepSnapshot>, i: nat): nat {
    if i >= |snapshots| then i else ScanTo(snapshots, snapshots[i].callDepth, i + 1)
  }

  datatype Command = StepInto | StepOver | Continue | Poll | TraceSteps | Abort

  datatype Response = State(state: SessionState) | Rows(rows: seq<TraceStep>) | Done

  /** The session after a command; only a ready session moves, only an abort replaces it. */
  function After(data: SessionData, command: Command): SessionData {
    match command
    case Abort => SessionData.Aborted
    case StepInto =>
      if data.Ready? then data.(currentIndex := StepIntoIndex(data.snapshots, data.currentIndex)) else data
    case StepOver =>
      if data.Ready? then data.(currentIndex := StepOverIndex(data.snapshots, data.currentIndex)) else data
    case Continue => if data.Ready? then data.(currentIndex := |data.snapshots|) else data
    case _ => data
  }

  function Answer(data: SessionData, command: Command): Response {
    match command
    case Abort => Done
    case TraceSteps => Rows(TraceRows(data))
    case _ => State(CurrentState(After(data, command)))
  }

  function AfterAll(data: SessionData, commands: seq<Command>): SessionData
    decreases |commands|
  {
    if commands == [] then data else AfterAll(After(data, commands[0]), commands[1..])
  }

  function Answers(data: SessionData, commands: seq<Command>): (answers: seq<Response>)
    ensures |answers| == |commands|
    decreases |commands|
  {
    if commands == [] then [] else [Answer(data, commands[0])] + Answers(After(data, commands[0]), commands[1..])
  }

  /** The critical section of `wait_for_snapshots`. */
  function StoreMessage(data: SessionData, message: ChannelMessage): SessionData {
    if data.Aborted? then data
    else match message
         case AllSnapshots(snapshots, result) => Ready(snapshots, 0, result)
         case Failure(text) => SessionData.Error(text)
  }

  /** What that critical section returns to the background task. */
  function StoreAnswer(data: SessionData, message: ChannelMessage): SessionState {
    if data.Aborted? then SessionState.Aborted
    else match message
         case AllSnapshots(snapshots, result) =>
           if snapshots != [] then SessionState.Paused(snapshots[0])
           else (match result
                 case Some(r) => SessionState.Finished(r)
                 case None => SessionState.Error("Execution produced no steps"))
         case Failure(text) => SessionState.Error(text)
  }

  function ForCache(data: SessionData): Option<TraceCacheFile> {
    if data.Ready? then Some(TraceCacheFile(data.snapshots, data.result)) else None
  }

  function FromCache(file: TraceCacheFile): SessionData {
    Ready(file.snapshots, 0, file.result)
  }

  const DISCONNECTED := Failure("EVM thread disconnected")

  // ==== The session in place ====

  /** `sync_channel(1)`: `senders` is 0 once the EVM thread has dropped its end. */
  class Channel {
    var queue: seq<ChannelMessage>
    var senders: nat
    /** Messages ever sent. */
    var sent: nat

    constructor ()
      ensures queue == [] && senders == 1 && sent == 0
    {
      queue, senders, sent := [], 1, 0;
    }

    /** Blocks while a message is waiting; a caller that never blocks meets the requires. */
    method Send(message: ChannelMessage)
      requires |queue| < 1 && senders > 0
      modifies this
      ensures queue == [message] && sent == old(sent) + 1 && senders == old(senders)
    {
      queue := queue + [message];
      sent := sent + 1;
    }

    method DropSender()
      requires senders > 0
      modifies this
      ensures senders == old(senders) - 1 && queue == old(queue) && sent == old(sent)
    {
      senders := senders - 1;
    }

    /** Returns once a message is there or no sender is left. */
    method Recv() returns (message: Option<ChannelMessage>)
      requires queue != [] || senders == 0
      modifies this
      ensures old(queue) != [] ==> message == Some(old(queue)[0]) && queue == old(queue)[1..]
      ensures old(queue) == [] ==> message == None && queue == []
      ensures senders == old(senders) && sent == old(sent)
    {
      if queue == [] {
        return None;
      }
      message := Some(queue[0]);
      queue := queue[1..];
    }
  }

  class DebugSession {
    var data: SessionData
    var snapRx: Option<Channel>
    var abortFlag: bool

    ghost predicate Valid()
      reads this
    {
      data.Ready? ==> data.currentIndex <= |data.snapshots|
    }

    constructor New(rx: Channel)
      ensures Valid() && data == SessionData.Loading && snapRx == Some(rx) && !abortFlag
    {
      data, snapRx, abortFlag := SessionData.Loading, Some(rx), false;
    }

    constructor FromFile(file: TraceCacheFile)
      ensures Valid() && data == FromCache(file) && snapRx == None && !abortFlag
      ensures data == SessionData.Ready(file.snapshots, 0, file.result)
    {
      data, snapRx, abortFlag := Ready(file.snapshots, 0, file.result), None, false;
    }

    method SnapshotsForCache() returns (file: Option<TraceCacheFile>)
      ensures file == ForCache(data)
      ensures if data.Ready? then file == Some(TraceCacheFile(data.snapshots, data.result)) else file == None
    {
      match data {
        case Ready(snapshots, _, result) => file := Some(TraceCacheFile(snapshots, result));
        case _ => file := None;
      }
    }

    /** Takes the receiver, waits for one message and stores it unless the session was
        aborted meanwhile. */
    method WaitForSnapshots() returns (state: SessionState)
      requires Valid()
      requires snapRx.Some? ==> snapRx.value.queue != [] || snapRx.value.senders == 0
      modifies this, if snapRx.Some? then {snapRx.value} else {}
      ensures Valid() && snapRx == None && abortFlag == old(abortFlag)
      ensures old(snapRx).None? ==>
        data == old(data) && state == SessionState.Error("Snapshot receiver already consumed")
      ensures old(snapRx).Some? ==>
        var queue := old(if snapRx.Some? then snapRx.value.queue else []);
        var message := if queue != [] then queue[0] else DISCONNECTED;
        data == StoreMessage(old(data), message) && state == StoreAnswer(old(data), message)
      ensures old(snapRx).Some? && old(data).Aborted? ==>
        data == SessionData.Aborted && state == SessionState.Aborted
      ensures old(snapRx).Some? && !old(data).Aborted? ==>
        var queue := old(if snapRx.Some? then snapRx.value.queue else []);
        && (queue == [] ==>
              data == SessionData.Error("EVM thread disconnected") && state == SessionState.Error(data.message))
        && (queue != [] && queue[0].Failure? ==>
              data == SessionData.Error(queue[0].message) && state == SessionState.Error(queue[0].message))
        && (queue != [] && queue[0].AllSnapshots? ==>
              && data == SessionData.Ready(queue[0].snapshots, 0, queue[0].result)
              && if data.snapshots == [] && data.result == None
                 then state == SessionState.Error("Execution produced no steps")
                 else Tells(state, data))
    {
      if snapRx.None? {
        return SessionState.Error("Snapshot receiver already consumed");
      }
      var rx := snapRx.value;
      snapRx := None;
      var received := rx.Recv();
      var message := if received.Some? then received.value else DISCONNECTED;
      if data.Aborted? {
        return SessionState.Aborted;
      }
      match message {
        case AllSnapshots(snapshots, result) =>
          if snapshots == [] {
            match result {
              case Some(r) => state := SessionState.Finished(r);
              case None => state := SessionState.Error("Execution produced no steps");
            }
            data := Ready([], 0, result);
            return;
          }
          var first := snapshots[0];
          data := Ready(snapshots, 0, result);
          state := SessionState.Paused(first);
        case Failure(text) =>
          data := SessionData.Error(text);
          state := SessionState.Error(text);
      }
    }

    method StepInto() returns (state: SessionState)
      requires Valid()
      modifies this`data
      ensures Valid() && data == After(old(data), Command.StepInto) && state == CurrentState(data)
      ensures Tells(state, data)
      ensures if !old(data).Ready? then data == old(data)
              else data == old(data).(currentIndex := if old(data).currentIndex < |old(data).snapshots|
                                                      then old(data).currentIndex + 1 else |old(data).snapshots|)
    {
      if data.Ready? {
        data := data.(currentIndex := Min(data.currentIndex + 1, |data.snapshots|));
        return StateAt(data.snapshots, data.currentIndex, data.result);
      }
      return CurrentState(data);
    }

    method StepOver() returns (state: SessionState)
      requires Valid()
      modifies this`data
      ensures Valid() && data == After(old(data), Command.StepOver) && state == CurrentState(data)
      ensures Tells(state, data)
      ensures !old(data).Ready? ==> data == old(data)
      ensures old(data).Ready? ==> data == old(data).(currentIndex := data.currentIndex)
      ensures old(data).Ready? && old(data).currentIndex < |data.snapshots| ==>
        var (from, to) := (old(data).currentIndex, data.currentIndex);
        var depth := data.snapshots[from].callDepth;
        && from < to <= |data.snapshots|
        && (forall j :: from < j < to ==> data.snapshots[j].callDepth > depth)
        && (to < |data.snapshots| ==> data.snapshots[to].callDepth <= depth)
    {
      if data.Ready? {
        var snapshots := data.snapshots;
        if data.currentIndex >= |snapshots| {
          return StateAt(snapshots, data.currentIndex, data.result);
        }
        var targetDepth := snapshots[data.currentIndex].callDepth;
        data := data.(currentIndex := data.currentIndex + 1);
        while data.currentIndex < |snapshots| && snapshots[data.currentIndex].callDepth > targetDepth
          invariant data.Ready? && data.snapshots == snapshots && data.result == old(data).result
          invariant old(data).currentIndex < data.currentIndex <= |snapshots|
          invariant ScanTo(snapshots, targetDepth, data.currentIndex)
                    == StepOverIndex(snapshots, old(data).currentIndex)
          decreases |snapshots| - data.currentIndex
        {
          data := data.(currentIndex := data.currentIndex + 1);
        }
        return StateAt(snapshots, data.currentIndex, data.result);
      }
      return CurrentState(data);
    }

    method ContinueExec() returns (state: SessionState)
      requires Valid()
      modifies this`data
      ensures Valid() && data == After(old(data), Command.Continue) && state == CurrentState(data)
      ensures Tells(state, data)
      ensures if old(data).Ready? then data == old(data).(currentIndex := |old(data).snapshots|) else data == old(data)
    {
      if data.Ready? {
        data := data.(currentIndex := |data.snapshots|);
        return StateAt(data.snapshots, data.currentIndex, data.result);
      }
      return CurrentState(data);
    }

    /** Two separate writes: another thread may act between them. */
    method AbortNow()
      modifies this
      ensures Valid() && data == After(old(data), Command.Abort) && abortFlag && snapRx == old(snapRx)
      ensures data == SessionData.Aborted
    {
      abortFlag := true;
      data := SessionData.Aborted;
    }

    method GetCurrentState() returns (state: SessionState)
      ensures state == CurrentState(data)
      ensures Tells(state, data)
    {
      return CurrentState(data);
    }

    method GetTraceSteps() returns (rows: seq<TraceStep>)
      ensures rows == TraceRows(data)
      ensures data.Ready? ==>
        |rows| == |data.snapshots|
        && forall i :: 0 <= i < |rows| ==>
             var s := data.snapshots[i];
             && rows[i].step == s.stepNumber && rows[i].pc == s.pc
             && rows[i].opcode == s.opcode && rows[i].opcodeName == s.opcodeName
      ensures !data.Ready? ==> rows == []
    {
      rows := [];
      if data.Ready? {
        for i := 0 to |data.snapshots|
          invariant rows == TraceRows(data)[..i]
        {
          var s := data.snapshots[i];
          rows := rows + [TraceStep(s.stepNumber, s.pc, s.opcode, s.opcodeName)];
        }
      }
    }
  }
}
