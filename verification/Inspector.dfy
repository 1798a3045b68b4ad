/** `StepDebugInspector` of `src/inspector.rs`: the recorder that turns revm's hooks into
    one snapshot per executed opcode. */
module Inspector {
  import opened Types
  import opened CallTree
  import opened Hex

  const SSTORE: Byte := 0x55

  const ZERO_ADDRESS := "0x0000000000000000000000000000000000000000"

  /** Every field of the inspector, with the shared snapshot buffer. */
  datatype Recorder = Recorder(
    maxMemory: nat,
    callStack: seq<CallFrame>,
    logs: seq<LogEntry>,
    storage: StorageMap,
    stepNumber: nat,
    gasInitial: U64,
    snapshots: seq<StepSnapshot>)

  function NewRecorder(maxMemory: nat): Recorder {
    Recorder(maxMemory, [], [], map[], 0, 0, [])
  }

  function SaturatingSub(a: U64, b: U64): U64 {
    if a >= b then a - b else 0
  }

  /** The contract of the innermost open frame. */
  function TopContract(frames: seq<CallFrame>): string {
    if frames == [] then ZERO_ADDRESS else frames[|frames| - 1].contract
  }

  function KindName(scheme: CallScheme): string {
    match scheme
    case Call => "CALL"
    case StaticCall => "STATICCALL"
    case DelegateCall => "DELEGATECALL"
    case CallCode => "CALLCODE"
  }

  /** The frame record a `call` or `create` hook pushes. */
  function FrameRecord(input: FrameInput, depth: nat): CallFrame {
    match input
    case CallInput(scheme, target, caller, value) => CallFrame(depth, target, caller, value, KindName(scheme))
    case CreateInput(creator, endowment) => CallFrame(depth, ZERO_ADDRESS, creator, endowment, "CREATE")
  }

  /** The stack as text, top first. */
  function StackText(stack: seq<U256>): (s: seq<string>)
    ensures |s| == |stack|
  {
    seq(|stack|, i requires 0 <= i < |stack| => Word(stack[|stack| - 1 - i]))
  }

  function EncodeMemory(bytes: seq<Byte>, maxBytes: nat): (string, bool) {
    if bytes == [] then ("", false)
    else (Encode(bytes[..Min(|bytes|, maxBytes)]), |bytes| > maxBytes)
  }

  /** The dump shows exactly the first `maxBytes` bytes and says whether any are missing. */
  lemma MemoryDumpIsPrefix(bytes: seq<Byte>, maxBytes: nat)
    ensures var (text, truncated) := EncodeMemory(bytes, maxBytes);
      && |text| == 2 * Min(|bytes|, maxBytes)
      && Spells(text, bytes[..Min(|bytes|, maxBytes)])
      && AllHex(text) && Decode(text) <= bytes
      && (truncated <==> Decode(text) != bytes)
  {
    EncodeSpells(bytes[..Min(|bytes|, maxBytes)]);
    DecodeEncode(bytes[..Min(|bytes|, maxBytes)]);
  }

  /** The frame record says who was called, by whom, with what and how. */
  ghost predicate Records(frame: CallFrame, input: FrameInput, depth: nat) {
    && frame.depth == depth
    && (input.CallInput? ==>
          && frame.contract == input.target && frame.caller == input.caller && frame.value == input.value
          && (input.scheme.Call? ==> frame.kind == "CALL")
          && (input.scheme.StaticCall? ==> frame.kind == "STATICCALL")
          && (input.scheme.DelegateCall? ==> frame.kind == "DELEGATECALL")
          && (input.scheme.CallCode? ==> frame.kind == "CALLCODE"))
    && (input.CreateInput? ==>
          && frame.contract == "0x0000000000000000000000000000000000000000"
          && frame.caller == input.creator && frame.value == input.endowment && frame.kind == "CREATE")
  }

  function OpcodeName(view: InterpView): string {
    if view.name.Some? then view.name.value else "0x" + ByteText(view.opcode)
  }

  /** `entry(contract).or_default().insert(slot, value)`. */
  function Write(storage: StorageMap, contract: string, slot: string, value: string): StorageMap {
    var slots := if contract in storage then storage[contract] else map[];
    storage[contract := slots[slot := value]]
  }

  function Capture(r: Recorder, view: InterpView, depth: nat): StepSnapshot {
    var (memoryHex, memoryTruncated) := EncodeMemory(view.memory, r.maxMemory);
    StepSnapshot(
      r.stepNumber, view.pc, view.opcode, OpcodeName(view), depth, view.gasRemaining,
      SaturatingSub(r.gasInitial, view.gasRemaining), StackText(view.stack),
      |view.memory|, memoryHex, memoryTruncated,
      r.storage, r.callStack, r.logs, TopContract(r.callStack))
  }

  /** Only an SSTORE with both operands on the stack counts as a write. */
  function NoteStore(r: Recorder, view: InterpView): Recorder {
    if view.opcode == SSTORE && |view.stack| >= 2 then
      r.(storage := Write(r.storage, TopContract(r.callStack),
                          Word(view.stack[|view.stack| - 1]), Word(view.stack[|view.stack| - 2])))
    else r
  }

  function OnStep(r: Recorder, view: InterpView, depth: nat, aborted: bool): Recorder {
    if aborted then r
    else
      var noted := NoteStore(r, view);
      noted.(stepNumber := r.stepNumber + 1, snapshots := r.snapshots + [Capture(noted, view, depth)])
  }

  function Pop<T>(s: seq<T>): seq<T> {
    if s == [] then [] else s[..|s| - 1]
  }

  function Apply(r: Recorder, h: Hook): Recorder {
    match h
    case Enter(input, depth) => r.(callStack := r.callStack + [FrameRecord(input, depth)])
    case InitInterp(gasLimit) => r.(gasInitial := gasLimit)
    case Step(view, depth, aborted) => OnStep(r, view, depth, aborted)
    case EmitLog(log) => r.(logs := r.logs + [log])
    case Leave(_) => r.(callStack := Pop(r.callStack))
  }

  function ApplyAll(r: Recorder, hooks: seq<Hook>): Recorder
    decreases |hooks|
  {
    if hooks == [] then r else ApplyAll(Apply(r, hooks[0]), hooks[1..])
  }

  lemma {:induction false} ApplyConcat(r: Recorder, a: seq<Hook>, b: seq<Hook>)
    ensures ApplyAll(r, a + b) == ApplyAll(ApplyAll(r, a), b)
    decreases |a|
  {
    if a == [] {
      assert a + b == b;
    } else {
      assert (a + b)[1..] == a[1..] + b;
      ApplyConcat(Apply(r, a[0]), a[1..], b);
    }
  }

  // ---- The recorder in place ----

  /** The snapshot vector the inspector shares with the executor. */
  class SnapshotBuffer {
    var items: seq<StepSnapshot>

    constructor ()
      ensures items == []
    {
      items := [];
    }

    /** `std::mem::take`: hands the vector over and leaves an empty one. */
    method Take() returns (taken: seq<StepSnapshot>)
      modifies this
      ensures taken == old(items) && items == []
    {
      taken := items;
      items := [];
    }
  }

  class StepDebugInspector {
    const snapshots: SnapshotBuffer
    const maxMemoryBytes: nat
    var callStack: seq<CallFrame>
    var logs: seq<LogEntry>
    var storageChanges: StorageMap
    var stepNumber: nat
    var gasInitial: U64

    ghost function State(): Recorder
      reads this, snapshots
    {
      Recorder(maxMemoryBytes, callStack, logs, storageChanges, stepNumber, gasInitial, snapshots.items)
    }

    constructor (buffer: SnapshotBuffer, maxMemory: nat)
      ensures snapshots == buffer && maxMemoryBytes == maxMemory
      ensures State() == NewRecorder(maxMemory).(snapshots := buffer.items)
    {
      snapshots, maxMemoryBytes := buffer, maxMemory;
      callStack, logs, storageChanges, stepNumber, gasInitial := [], [], map[], 0, 0;
    }

    method InitializeInterp(gasLimit: U64)
      modifies this
      ensures State() == Apply(old(State()), InitInterp(gasLimit))
    {
      gasInitial := gasLimit;
    }

    /** `aborted` is the value the relaxed load of the abort flag returns. A true result
        asks revm to halt the frame. */
    method OnStep(view: InterpView, depth: nat, aborted: bool) returns (halt: bool)
      modifies this, snapshots
      ensures State() == Apply(old(State()), Step(view, depth, aborted))
      ensures halt == aborted
      ensures aborted ==> State() == old(State())
    {
      if aborted {
        return true;
      }
      RecordStore(view);
      var snapshot := CaptureSnapshot(view, depth);
      stepNumber := stepNumber + 1;
      snapshots.items := snapshots.items + [snapshot];
      return false;
    }

    /** Notes an SSTORE's slot and value before the opcode executes. */
    method RecordStore(view: InterpView)
      modifies this`storageChanges
      ensures State() == NoteStore(old(State()), view)
      ensures !(view.opcode == 0x55 && |view.stack| >= 2) ==> storageChanges == old(storageChanges)
      ensures view.opcode == 0x55 && |view.stack| >= 2 ==>
        var contract := if callStack == [] then "0x0000000000000000000000000000000000000000"
                        else callStack[|callStack| - 1].contract;
        var key, value := Word(view.stack[|view.stack| - 1]), Word(view.stack[|view.stack| - 2]);
        && storageChanges.Keys == old(storageChanges).Keys + {contract}
        && (forall c :: c in old(storageChanges) && c != contract ==> storageChanges[c] == old(storageChanges)[c])
        && key in storageChanges[contract] && storageChanges[contract][key] == value
        && (forall k :: k != key ==>
              (k in storageChanges[contract] <==> contract in old(storageChanges) && k in old(storageChanges)[contract]))
        && (forall k :: k != key && k in storageChanges[contract] ==>
              storageChanges[contract][k] == old(storageChanges)[contract][k])
    {
      if view.opcode == SSTORE {
        var stack := view.stack;
        if |stack| >= 2 {
          var key := stack[|stack| - 1];
          var value := stack[|stack| - 2];
          var contract := TopContract(callStack);
          var slots: map<string, string> := map[];
          if contract in storageChanges {
            slots := storageChanges[contract];
          }
          storageChanges := storageChanges[contract := slots[Word(key) := Word(value)]];
        }
      }
    }

    method CaptureSnapshot(view: InterpView, depth: nat) returns (snapshot: StepSnapshot)
      ensures snapshot == Capture(State(), view, depth)
      ensures snapshot.callDepth == depth && snapshot.stepNumber == stepNumber
      ensures snapshot.storageChanges == storageChanges && snapshot.callStack == callStack && snapshot.logs == logs
      ensures snapshot.contractAddress == if callStack == [] then "0x0000000000000000000000000000000000000000"
                                          else callStack[|callStack| - 1].contract
    {
      var (memoryHex, memoryTruncated) := EncodeMemory(view.memory, maxMemoryBytes);
      snapshot := StepSnapshot(
        stepNumber, view.pc, view.opcode, OpcodeName(view), depth, view.gasRemaining,
        SaturatingSub(gasInitial, view.gasRemaining), StackText(view.stack),
        |view.memory|, memoryHex, memoryTruncated,
        storageChanges, callStack, logs, TopContract(callStack));
    }

    method OnCall(scheme: CallScheme, target: string, caller: string, value: string, depth: nat)
      modifies this
      ensures State() == Apply(old(State()), Enter(CallInput(scheme, target, caller, value), depth))
      ensures |callStack| == |old(callStack)| + 1 && callStack[..|callStack| - 1] == old(callStack)
      ensures Records(callStack[|callStack| - 1], CallInput(scheme, target, caller, value), depth)
    {
      callStack := callStack + [CallFrame(depth, target, caller, value, KindName(scheme))];
    }

    /** Popping an empty vector does nothing. */
    method OnCallEnd(input: FrameInput)
      modifies this
      ensures State() == Apply(old(State()), Leave(input))
    {
      if callStack != [] {
        callStack := callStack[..|callStack| - 1];
      }
    }

    method OnCreate(creator: string, endowment: string, depth: nat)
      modifies this
      ensures State() == Apply(old(State()), Enter(CreateInput(creator, endowment), depth))
      ensures |callStack| == |old(callStack)| + 1 && callStack[..|callStack| - 1] == old(callStack)
      ensures Records(callStack[|callStack| - 1], CreateInput(creator, endowment), depth)
    {
      callStack := callStack + [CallFrame(depth, ZERO_ADDRESS, creator, endowment, "CREATE")];
    }

    method OnCreateEnd(input: FrameInput)
      modifies this
      ensures State() == Apply(old(State()), Leave(input))
    {
      if callStack != [] {
        callStack := callStack[..|callStack| - 1];
      }
    }

    method OnLog(log: LogEntry)
      modifies this
      ensures State() == Apply(old(State()), EmitLog(log))
    {
      logs := logs + [log];
    }

    method Handle(h: Hook)
      modifies this, snapshots
      ensures State() == Apply(old(State()), h)
    {
      match h {
        case Enter(input, depth) =>
          match input {
            case CallInput(scheme, target, caller, value) => OnCall(scheme, target, caller, value, depth);
            case CreateInput(creator, endowment) => OnCreate(creator, endowment, depth);
          }
        case InitInterp(gasLimit) => InitializeInterp(gasLimit);
        case Step(view, depth, aborted) => var _ := OnStep(view, depth, aborted);
        case EmitLog(log) => OnLog(log);
        case Leave(input) => if input.CallInput? { OnCallEnd(input); } else { OnCreateEnd(input); }
      }
    }
  }

  /** `inspect_one_tx`, seen by the inspector: revm delivers the hooks in order. */
  method Deliver(inspector: StepDebugInspector, hooks: seq<Hook>)
    modifies inspector, inspector.snapshots
    ensures inspector.State() == ApplyAll(old(inspector.State()), hooks)
  {
    assert hooks[..0] == [];
    for i := 0 to |hooks|
      invariant inspector.State() == ApplyAll(old(inspector.State()), hooks[..i])
    {
      inspector.Handle(hooks[i]);
      assert hooks[..i + 1] == hooks[..i] + [hooks[i]];
      ApplyConcat(old(inspector.State()), hooks[..i], [hooks[i]]);
    }
    assert hooks[..|hooks|] == hooks;
  }
}
