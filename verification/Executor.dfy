/** The EVM thread of `src/executor.rs`: set up, replay under the recorder, send once. */
module Executor {
  import opened Types
  import opened CallTree
  import opened Hex
  import opened Inspector
  import opened Recording
  import opened Session

  /** What the set-up code meets before the replay, in the order it looks. */
  datatype Setup = Setup(
    rpcUrl: string,
    urlError: Option<string>,
    multiThreadRuntime: bool,
    caller: string,
    callerParses: bool,
    to: Option<string>,
    toParses: bool,
    txEnvError: Option<string>)

  datatype ExecutionResult =
    | Success(gasUsed: U64, output: seq<Byte>, reason: string)
    | Revert(gasUsed: U64, output: seq<Byte>)
    | Halt(gasUsed: U64, reason: string)

  function SetupError(setup: Setup): Option<string> {
    if setup.urlError.Some? then Some("Invalid RPC URL: " + setup.rpcUrl + "; " + setup.urlError.value)
    else if !setup.multiThreadRuntime then Some("WrapDatabaseAsync::new failed: need multi-thread runtime")
    else if !setup.callerParses then Some("Invalid caller address: " + setup.caller)
    else if setup.to.Some? && !setup.toParses then Some("Invalid to address: " + setup.to.value)
    else if setup.txEnvError.Some? then Some("TxEnv build error: " + setup.txEnvError.value)
    else None
  }

  function ResultInfo(r: ExecutionResult): ExecutionResultInfo {
    match r
    case Success(gasUsed, output, reason) => ExecutionResultInfo(true, gasUsed, "0x" + Encode(output), reason)
    case Revert(gasUsed, output) => ExecutionResultInfo(false, gasUsed, "0x" + Encode(output), "Revert")
    case Halt(gasUsed, reason) => ExecutionResultInfo(false, gasUsed, "", reason)
  }

  /** What the thread sends once the replay has returned. */
  function FinalMessage(snapshots: seq<StepSnapshot>, outcome: Result<ExecutionResult>): ChannelMessage {
    match outcome
    case Ok(r) => AllSnapshots(snapshots, Some(ResultInfo(r)))
    case Err(text) => if snapshots == [] then Failure(text) else AllSnapshots(snapshots, None)
  }

  function ThreadMessage(setup: Setup, maxMemory: nat, hooks: seq<Hook>, outcome: Result<ExecutionResult>)
    : ChannelMessage
  {
    match SetupError(setup)
    case Some(text) => Failure(text)
    case None => FinalMessage(ApplyAll(NewRecorder(maxMemory), hooks).snapshots, outcome)
  }

  // ---- What the message must say ----

  /** Only a success counts as one; its output and a revert's are printed as bytes, a halt
      has none; a revert's reason is that it reverted. */
  predicate ReportsResult(info: ExecutionResultInfo, r: ExecutionResult) {
    && (info.success <==> r.Success?)
    && info.gasUsed == r.gasUsed
    && (r.Halt? ==> info.output == "")
    && (!r.Halt? ==> "0x" <= info.output && Spells(info.output[2..], r.output))
    && info.reason == if r.Revert? then "Revert" else r.reason
  }

  lemma ResultIsReported(r: ExecutionResult)
    ensures ReportsResult(ResultInfo(r), r)
  {
    if !r.Halt? {
      EncodeSpells(r.output);
      assert ("0x" + Encode(r.output))[2..] == Encode(r.output);
    }
  }

  predicate SetupPasses(setup: Setup) {
    && setup.urlError == None && setup.multiThreadRuntime && setup.callerParses
    && (setup.to.Some? ==> setup.toParses) && setup.txEnvError == None
  }

  /** The message of a set-up that fails names the first check that does, with its input. */
  predicate NamesFirstFailure(setup: Setup, message: ChannelMessage) {
    && (setup.urlError.Some? ==>
          message == Failure("Invalid RPC URL: " + setup.rpcUrl + "; " + setup.urlError.value))
    && (setup.urlError.None? && !setup.multiThreadRuntime ==>
          message == Failure("WrapDatabaseAsync::new failed: need multi-thread runtime"))
    && (setup.urlError.None? && setup.multiThreadRuntime && !setup.callerParses ==>
          message == Failure("Invalid caller address: " + setup.caller))
    && (setup.urlError.None? && setup.multiThreadRuntime && setup.callerParses && setup.to.Some? && !setup.toParses ==>
          message == Failure("Invalid to address: " + setup.to.value))
    && (setup.txEnvError.Some? && SetupPasses(setup.(txEnvError := None)) ==>
          message == Failure("TxEnv build error: " + setup.txEnvError.value))
  }

  /** The message of a replay: everything recorded, with the result if it returned one; an
      error with nothing recorded is the message itself. */
  predicate ReportsReplay(
      snapshots: seq<StepSnapshot>, outcome: Result<ExecutionResult>, message: ChannelMessage)
  {
    && (outcome.Ok? ==>
          && message.AllSnapshots? && message.snapshots == snapshots
          && message.result.Some? && ReportsResult(message.result.value, outcome.value))
    && (outcome.Err? && snapshots != [] ==> message == AllSnapshots(snapshots, None))
    && (outcome.Err? && snapshots == [] ==> message == Failure(outcome.message))
  }

  lemma MessageSaysWhatHappened(
      setup: Setup, maxMemory: nat, hooks: seq<Hook>, outcome: Result<ExecutionResult>)
    ensures var message := ThreadMessage(setup, maxMemory, hooks, outcome);
      && NamesFirstFailure(setup, message)
      && (SetupPasses(setup) ==>
            ReportsReplay(ApplyAll(NewRecorder(maxMemory), hooks).snapshots, outcome, message))
  {
    if outcome.Ok? {
      ResultIsReported(outcome.value);
    }
  }

  /** `hooks` is what revm delivers and `outcome` what `inspect_one_tx` returns. On every
      path the thread sends exactly one message, into an empty channel, and lets go. */
  method RunEvmThread(setup: Setup, maxMemory: nat, hooks: seq<Hook>, outcome: Result<ExecutionResult>, snapTx: Channel)
    requires snapTx.queue == [] && snapTx.senders == 1
    modifies snapTx
    ensures snapTx.sent == old(snapTx.sent) + 1 && snapTx.senders == 0
    ensures snapTx.queue == [ThreadMessage(setup, maxMemory, hooks, outcome)]
    ensures NamesFirstFailure(setup, snapTx.queue[0])
    ensures SetupPasses(setup) ==>
      ReportsReplay(ApplyAll(NewRecorder(maxMemory), hooks).snapshots, outcome, snapTx.queue[0])
  {
    MessageSaysWhatHappened(setup, maxMemory, hooks, outcome);
    if setup.urlError.Some? {
      snapTx.Send(Failure("Invalid RPC URL: " + setup.rpcUrl + "; " + setup.urlError.value));
      snapTx.DropSender();
      return;
    }
    if !setup.multiThreadRuntime {
      snapTx.Send(Failure("WrapDatabaseAsync::new failed: need multi-thread runtime"));
      snapTx.DropSender();
      return;
    }
    if !setup.callerParses {
      snapTx.Send(Failure("Invalid caller address: " + setup.caller));
      snapTx.DropSender();
      return;
    }
    if setup.to.Some? && !setup.toParses {
      snapTx.Send(Failure("Invalid to address: " + setup.to.value));
      snapTx.DropSender();
      return;
    }
    if setup.txEnvError.Some? {
      snapTx.Send(Failure("TxEnv build error: " + setup.txEnvError.value));
      snapTx.DropSender();
      return;
    }

    var buffer := new SnapshotBuffer();
    var inspector := new StepDebugInspector(buffer, maxMemory);
    assert inspector.State() == NewRecorder(maxMemory);
    Deliver(inspector, hooks);
    var snapshots := buffer.Take();
    assert snapshots == ApplyAll(NewRecorder(maxMemory), hooks).snapshots;
    var result: Option<ExecutionResultInfo>;
    match outcome {
      case Ok(r) =>
        match r {
          case Success(gasUsed, output, reason) =>
            result := Some(ExecutionResultInfo(true, gasUsed, "0x" + Encode(output), reason));
          case Revert(gasUsed, output) =>
            result := Some(ExecutionResultInfo(false, gasUsed, "0x" + Encode(output), "Revert"));
          case Halt(gasUsed, reason) =>
            result := Some(ExecutionResultInfo(false, gasUsed, "", reason));
        }
      case Err(text) =>
        if snapshots == [] {
          snapTx.Send(Failure(text));
          snapTx.DropSender();
          return;
        }
        result := None;
    }
    snapTx.Send(AllSnapshots(snapshots, result));
    snapTx.DropSender();
  }

  /** No path sends the one message on which the first answer and a poll disagree, so
      what `wait_for_snapshots` first returns is what a poll would show. */
  lemma FirstAnswerIsCurrentState(
      setup: Setup, maxMemory: nat, hooks: seq<Hook>, outcome: Result<ExecutionResult>, data: SessionData)
    ensures var message := ThreadMessage(setup, maxMemory, hooks, outcome);
      && message != AllSnapshots([], None)
      && StoreAnswer(data, message) == CurrentState(StoreMessage(data, message))
  {
  }

  /** Whatever the thread sends of a replay that an abort or an error cut short mirrors
      the call tree up to the cut, and is a prefix of the trace a whole replay leaves. */
  lemma MessageMirrorsTree(
      setup: Setup, f: Frame, maxMemory: nat, k: nat, m: nat, outcome: Result<ExecutionResult>)
    requires m <= |RunFrame(f, 0, k).0|
    ensures var message := ThreadMessage(setup, maxMemory, RunFrame(f, 0, k).0[..m], outcome);
      message.AllSnapshots? ==>
        Mirrors(message.snapshots, f, maxMemory) && message.snapshots <= FullTrace(f, maxMemory)
  {
    FatalErrorGivesPrefix(f, maxMemory, k, m);
  }
}
