/** The values exchanged between the recorder, the executor, the sessions and the
    cache: the structs and enums of `src/types.rs`. */
module Types {

  datatype Option<+T> = None | Some(value: T)

  datatype Result<+T> = Ok(value: T) | Err(message: string)

  type Byte = x: nat | x < 0x100
  type U64 = x: nat | x < 0x1_0000_0000_0000_0000
  type U256 = x: nat |
    x < 0x1_0000_0000_0000_0000_0000_0000_0000_0000_0000_0000_0000_0000_0000_0000_0000_0000

  datatype CallFrame = CallFrame(depth: nat, contract: string, caller: string, value: string, kind: string)

  datatype LogEntry = LogEntry(contract: string, topics: seq<string>, data: string)

  /** Contract address, then storage slot, to the value last written there. */
  type StorageMap = map<string, map<string, string>>

  datatype StepSnapshot = StepSnapshot(
    stepNumber: nat,
    pc: nat,
    opcode: Byte,
    opcodeName: string,
    callDepth: nat,
    gasRemaining: U64,
    gasUsed: U64,
    stack: seq<string>,
    memorySize: nat,
    memoryHex: string,
    memoryTruncated: bool,
    storageChanges: StorageMap,
    callStack: seq<CallFrame>,
    logs: seq<LogEntry>,
    contractAddress: string)

  datatype TraceStep = TraceStep(step: nat, pc: nat, opcode: Byte, opcodeName: string)

  datatype ExecutionResultInfo = ExecutionResultInfo(success: bool, gasUsed: U64, output: string, reason: string)

  /** EVM thread to session, sent once. `Failure` is the source's `Error`. */
  datatype ChannelMessage =
    | AllSnapshots(snapshots: seq<StepSnapshot>, result: Option<ExecutionResultInfo>)
    | Failure(message: string)

  /** What the HTTP layer shows of a session. */
  datatype SessionState =
    | Loading
    | Paused(snapshot: StepSnapshot)
    | Finished(result: ExecutionResultInfo)
    | Error(message: string)
    | Aborted

  /** The contents of one trace cache file. */
  datatype TraceCacheFile = TraceCacheFile(snapshots: seq<StepSnapshot>, result: Option<ExecutionResultInfo>)

  function Min(a: nat, b: nat): nat {
    if a < b then a else b
  }
}
