/** An EVM execution as a call tree, and the stream of inspector hooks that revm
    produces while it walks the tree. `RunFrame` is the one assumption about revm. */
module CallTree {
  import opened Types

  /** What `Interpreter` shows the inspector before an opcode executes; the stack has
      its top at the end, and `name` is the opcode's mnemonic if it has one. */
  datatype InterpView = InterpView(
    pc: nat,
    opcode: Byte,
    name: Option<string>,
    gasRemaining: U64,
    stack: seq<U256>,
    memory: seq<Byte>)

  datatype CallScheme = Call | StaticCall | DelegateCall | CallCode

  datatype FrameInput =
    | CallInput(scheme: CallScheme, target: string, caller: string, value: string)
    | CreateInput(creator: string, endowment: string)

  /** A frame that a precompile or an early failure answers is never interpreted. */
  datatype Frame = Frame(input: FrameInput, body: Body)
  datatype Body = NotInterpreted | Interpreted(gasLimit: U64, code: seq<Instr>)

  /** One executed opcode, the logs it emits and the frame it opens, if any. */
  datatype Instr = Instr(view: InterpView, logs: seq<LogEntry>, child: Option<Frame>)

  predicate HasCode(i: Instr) {
    i.child.Some? && i.child.value.body.Interpreted?
  }

  function ChildCode(i: Instr): seq<Instr> {
    if HasCode(i) then i.child.value.body.code else []
  }

  /** The number of interpreted steps in `code`, callees included. */
  function Size(code: seq<Instr>): nat {
    if code == [] then 0
    else 1 + (if HasCode(code[0]) then Size(code[0].child.value.body.code) else 0) + Size(code[1..])
  }

  function FrameCode(f: Frame): seq<Instr> {
    if f.body.Interpreted? then f.body.code else []
  }

  function Steps(f: Frame): nat {
    Size(FrameCode(f))
  }

  // ---- The hook stream ----

  /** `Enter` is `call` or `create`, `Leave` is `call_end` or `create_end`. Depths are
      the journal's; `aborted` is what the inspector reads from the abort flag. */
  datatype Hook =
    | Enter(input: FrameInput, depth: nat)
    | InitInterp(gasLimit: U64)
    | Step(view: InterpView, depth: nat, aborted: bool)
    | EmitLog(log: LogEntry)
    | Leave(input: FrameInput)

  function LogHooks(logs: seq<LogEntry>): seq<Hook> {
    seq(|logs|, i requires 0 <= i < |logs| => EmitLog(logs[i]))
  }

  /** The hooks of a run that nobody aborts. */
  function FrameHooks(f: Frame, depth: nat): seq<Hook>
    decreases f
  {
    [Enter(f.input, depth)]
    + (match f.body
       case NotInterpreted => []
       case Interpreted(limit, code) => [InitInterp(limit)] + CodeHooks(code, depth + 1))
    + [Leave(f.input)]
  }

  function CodeHooks(code: seq<Instr>, depth: nat): seq<Hook>
    decreases code
  {
    if code == [] then []
    else InstrHooks(code[0], depth) + CodeHooks(code[1..], depth)
  }

  function InstrHooks(i: Instr, depth: nat): seq<Hook>
    decreases i
  {
    [Step(i.view, depth, false)] + LogHooks(i.logs)
    + (if i.child.Some? then FrameHooks(i.child.value, depth) else [])
  }

  /** The hooks when the abort flag first reads true at the `k`-th step: that step and
      the first later step of every open frame halt their frame, and `Leave` hooks
      close the frames. Returns the steps still to come before the flag reads true. */
  function RunFrame(f: Frame, depth: nat, k: nat): (r: (seq<Hook>, nat))
    decreases f
  {
    var body := match f.body
      case NotInterpreted => ([], k)
      case Interpreted(limit, code) =>
        var run := RunCode(code, depth + 1, k);
        ([InitInterp(limit)] + run.0, run.1);
    ([Enter(f.input, depth)] + body.0 + [Leave(f.input)], body.1)
  }

  function RunCode(code: seq<Instr>, depth: nat, k: nat): (r: (seq<Hook>, nat))
    decreases code
  {
    if code == [] then ([], k)
    else if k == 0 then ([Step(code[0].view, depth, true)], 0)
    else
      var head := RunInstr(code[0], depth, k);
      var tail := RunCode(code[1..], depth, head.1);
      (head.0 + tail.0, tail.1)
  }

  function RunInstr(i: Instr, depth: nat, k: nat): (r: (seq<Hook>, nat))
    requires k > 0
    decreases i
  {
    var child := if i.child.Some? then RunFrame(i.child.value, depth, k - 1) else ([], k - 1);
    ([Step(i.view, depth, false)] + LogHooks(i.logs) + child.0, child.1)
  }
}
