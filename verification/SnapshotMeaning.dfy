/** What one recorded snapshot tells a reader about the call tree, in the tree's own terms:
    the frames around the instruction, and what the interpreter held before it ran. */
module SnapshotMeaning {
  import opened Types
  import opened CallTree
  import opened Hex
  import opened TreePaths
  import opened Inspector
  import opened Recording
  import opened StepOver

  /** The call or create that opened the `d`-th frame around the instruction at `p`,
      the root frame's first. */
  ghost function InputAt(f: Frame, p: Path, d: nat): FrameInput
    requires f.body.Interpreted? && Valid(f.body.code, p) && d < Depth(p)
    decreases p
  {
    if d == 0 then f.input else InputAt(f.body.code[p.index].child.value, p.inner, d - 1)
  }

  lemma {:induction false} FramesRecordInputs(f: Frame, p: Path, outer: seq<CallFrame>, d: nat)
    requires f.body.Interpreted? && Valid(f.body.code, p) && d < Depth(p)
    ensures var frames := FramesAt(f.body.code, p, outer + [FrameRecord(f.input, |outer|)]);
      |outer| + d < |frames| && Records(frames[|outer| + d], InputAt(f, p, d), |outer| + d)
    decreases p
  {
    var frames := outer + [FrameRecord(f.input, |outer|)];
    if d == 0 {
      FramesExtend(f.body.code, p, frames);
    } else {
      FramesRecordInputs(f.body.code[p.index].child.value, p.inner, frames, d - 1);
    }
  }

  lemma {:induction false} FramesExtend(code: seq<Instr>, p: Path, frames: seq<CallFrame>)
    requires Valid(code, p)
    ensures frames <= FramesAt(code, p, frames)
    decreases p
  {
    if p.Inside? {
      FramesExtend(ChildCode(code[p.index]), p.inner, InnerFrames(code[p.index], frames));
    }
  }

  /** One record for each frame open around `p`, outermost first. */
  ghost predicate RecordsAll(frames: seq<CallFrame>, f: Frame, p: Path)
    requires f.body.Interpreted? && Valid(f.body.code, p)
  {
    |frames| == Depth(p) && forall d: nat :: d < Depth(p) ==> Records(frames[d], InputAt(f, p, d), d)
  }

  lemma RootFramesRecordInputs(f: Frame, p: Path)
    requires f.body.Interpreted? && Valid(f.body.code, p)
    ensures RecordsAll(FramesAt(f.body.code, p, [FrameRecord(f.input, 0)]), f, p)
  {
    var frames := FramesAt(f.body.code, p, [FrameRecord(f.input, 0)]);
    assert [] + [FrameRecord(f.input, 0)] == [FrameRecord(f.input, 0)];
    forall d: nat | d < Depth(p)
      ensures Records(frames[d], InputAt(f, p, d), d)
    {
      FramesRecordInputs(f, p, [], d);
    }
  }

  lemma SnapshotStackIs(trace: seq<StepSnapshot>, f: Frame, maxMemory: nat, p: Path)
    requires Mirrors(trace, f, maxMemory) && f.body.Interpreted? && Valid(f.body.code, p)
    requires Position(f.body.code, p) < |trace|
    ensures var s := trace[Position(f.body.code, p)];
      && s.callStack == FramesAt(f.body.code, p, [FrameRecord(f.input, 0)])
      && s.callDepth == |s.callStack| && s.contractAddress == TopContract(s.callStack)
  {
    SnapshotAtPath(trace, f, maxMemory, p);
  }

  /** Inside a call the contract is the one called, inside a create the zero address. */
  predicate ShowsContract(contract: string, input: FrameInput) {
    match input
    case CallInput(_, target, _, _) => contract == target
    case CreateInput(_, _) => contract == "0x0000000000000000000000000000000000000000"
  }

  lemma InnermostContract(frames: seq<CallFrame>, f: Frame, p: Path)
    requires f.body.Interpreted? && Valid(f.body.code, p) && RecordsAll(frames, f, p)
    ensures ShowsContract(TopContract(frames), InputAt(f, p, Depth(p) - 1))
  {
    assert Records(frames[Depth(p) - 1], InputAt(f, p, Depth(p) - 1), Depth(p) - 1);
  }

  /** Every snapshot's call stack is the frames open around its instruction, outermost
      first, each with its caller, target, value and kind; its contract is the target of
      the innermost, or the zero address inside a create. */
  lemma SnapshotReportsFrames(trace: seq<StepSnapshot>, f: Frame, maxMemory: nat, p: Path)
    requires Mirrors(trace, f, maxMemory) && f.body.Interpreted? && Valid(f.body.code, p)
    requires Position(f.body.code, p) < |trace|
    ensures var s := trace[Position(f.body.code, p)];
      && s.callDepth == Depth(p) && RecordsAll(s.callStack, f, p)
      && ShowsContract(s.contractAddress, InputAt(f, p, Depth(p) - 1))
  {
    SnapshotStackIs(trace, f, maxMemory, p);
    RootFramesRecordInputs(f, p);
    InnermostContract(trace[Position(f.body.code, p)].callStack, f, p);
  }

  /** The printed stack reads back, top first. */
  predicate ShowsStack(text: seq<string>, stack: seq<U256>) {
    |text| == |stack| && forall i :: 0 <= i < |stack| ==> ShowsWord(text[i], stack[|stack| - 1 - i])
  }

  lemma StackReadsBack(stack: seq<U256>)
    ensures ShowsStack(StackText(stack), stack)
  {
    forall i | 0 <= i < |stack|
      ensures ShowsWord(StackText(stack)[i], stack[|stack| - 1 - i])
    {
      WordReadsBack(stack[|stack| - 1 - i]);
    }
  }

  /** The opcode's mnemonic, or its number in two digits. */
  predicate ShowsOpcode(text: string, view: InterpView) {
    match view.name
    case Some(name) => text == name
    case None => |text| == 4 && text[..2] == "0x" && Spells(text[2..], [view.opcode])
  }

  lemma OpcodeReadsBack(view: InterpView)
    ensures ShowsOpcode(OpcodeName(view), view)
  {
    EncodeSpells([view.opcode]);
    assert Encode([view.opcode]) == ByteText(view.opcode);
    assert ("0x" + ByteText(view.opcode))[2..] == ByteText(view.opcode);
  }

  /** Every snapshot reports the interpreter as it was before its instruction ran. */
  lemma SnapshotReportsInterpreter(trace: seq<StepSnapshot>, f: Frame, maxMemory: nat, p: Path)
    requires Mirrors(trace, f, maxMemory) && f.body.Interpreted? && Valid(f.body.code, p)
    requires Position(f.body.code, p) < |trace|
    ensures var (s, view) := (trace[Position(f.body.code, p)], InstrAt(f.body.code, p).view);
      && s.pc == view.pc && s.opcode == view.opcode && ShowsOpcode(s.opcodeName, view)
      && s.gasRemaining == view.gasRemaining
      && ShowsStack(s.stack, view.stack)
      && s.memorySize == |view.memory|
      && Spells(s.memoryHex, view.memory[..Min(|view.memory|, maxMemory)])
      && (s.memoryTruncated <==> |view.memory| > maxMemory)
  {
    var view := InstrAt(f.body.code, p).view;
    SnapshotAtPath(trace, f, maxMemory, p);
    StackReadsBack(view.stack);
    OpcodeReadsBack(view);
    MemoryDumpIsPrefix(view.memory, maxMemory);
  }
}
