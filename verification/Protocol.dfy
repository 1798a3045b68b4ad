/** Creating, replaying, aborting and caching sessions as a transition system: background
    tasks, EVM threads, HTTP commands and aborts interleave freely. */
module Protocol {
  import opened Types
  import opened CallTree
  import opened Recording
  import opened Session
  import opened Executor

  /** The execution a session replays, as revm would run it to the end. */
  datatype Replay = Replay(root: Frame, maxMemory: nat)

  /** How an EVM thread ends when it does not vanish. */
  datatype ThreadEnd = SetupFailed(text: string) | Returned(outcome: Result<ExecutionResult>)

  /** `steps` snapshots are in the buffer; `halted` once a step has read the abort flag. */
  datatype Evm =
    | NotStarted
    | Running(steps: nat, halted: bool)
    | Sent(steps: nat, halted: bool, end: ThreadEnd)
    | Vanished

  /** The background task, by what it has done so far. A session restored from the cache
      has none. */
  datatype Task =
    | Restored
    | Spawned
    | Queued
    | Holding
    | Started
    | Waiting
    | Received(message: ChannelMessage)
    | Stored
    | Read(file: Option<TraceCacheFile>)
    | Written
    | Finished

  /** `openAborts` counts aborts that have stored the flag and not yet the data.
      `inWindow` remembers, for the read for the cache, whether such an abort was open
      while the session was still ready. */
  datatype Sess = Sess(
    path: string,
    replay: Replay,
    data: SessionData,
    flag: bool,
    openAborts: nat,
    task: Task,
    evm: Evm,
    channel: Option<ChannelMessage>,
    inWindow: bool)

  /** A cached file, with the session that saved it and the execution it came from. */
  datatype Entry = Entry(file: TraceCacheFile, owner: nat, replay: Replay)

  datatype System = System(
    capacity: nat,
    free: nat,
    queue: seq<nat>,
    sessions: seq<Sess>,
    cache: map<string, Entry>)

  datatype Action =
    | Create(path: string, replay: Replay)
    | Enqueue(i: nat)
    | Acquire(i: nat)
    | Start(i: nat)
    | TakeReceiver(i: nat)
    | Receive(i: nat)
    | Store(i: nat)
    | ReadForCache(i: nat)
    | Save(i: nat, works: bool)
    | Release(i: nat)
    | EvmStep(i: nat, observed: bool)
    | EvmSend(i: nat, end: ThreadEnd)
    | EvmVanish(i: nat)
    | Navigate(i: nat, command: Command)
    | AbortFlag(i: nat)
    | AbortData(i: nat)

  function Init(capacity: nat): System {
    System(capacity, capacity, [], [], map[])
  }

  // ==== One session's steps ====

  /** A setup failure precedes every step; a replay returns a result only when it ran out
      or was halted, and may die with an error anywhere. */
  predicate EndAllowed(replay: Replay, steps: nat, halted: bool, end: ThreadEnd) {
    match end
    case SetupFailed(_) => steps == 0 && !halted
    case Returned(outcome) => outcome.Ok? ==> halted || steps == Steps(replay.root)
  }

  /** The snapshots of a run whose first `steps` steps were recorded. */
  function Collected(replay: Replay, steps: nat): seq<StepSnapshot> {
    Run(replay.root, replay.maxMemory, steps).snapshots
  }

  function MessageOf(replay: Replay, steps: nat, end: ThreadEnd): ChannelMessage {
    match end
    case SetupFailed(text) => Failure(text)
    case Returned(outcome) => FinalMessage(Collected(replay, steps), outcome)
  }

  /** The message the thread sent, or what a vanished thread counts as. */
  function ThreadWord(s: Sess): ChannelMessage {
    if s.evm.Sent? then MessageOf(s.replay, s.evm.steps, s.evm.end) else DISCONNECTED
  }

  predicate LocalEnabled(s: Sess, a: Action) {
    match a
    case Create(_, _) => false
    case Enqueue(_) => s.task.Spawned?
    case Acquire(_) => s.task.Queued?
    case Start(_) => s.task.Holding?
    case TakeReceiver(_) => s.task.Started?
    case Receive(_) => s.task.Waiting? && (s.channel.Some? || s.evm.Vanished?)
    case Store(_) => s.task.Received?
    case ReadForCache(_) => s.task.Stored?
    case Save(_, _) => s.task.Read?
    case Release(_) => s.task.Written?
    case EvmStep(_, observed) =>
      s.evm.Running? && !s.evm.halted && s.evm.steps < Steps(s.replay.root) && (observed ==> s.flag)
    case EvmSend(_, end) =>
      s.evm.Running? && s.channel.None? && EndAllowed(s.replay, s.evm.steps, s.evm.halted, end)
    case EvmVanish(_) => s.evm.Running?
    case Navigate(_, command) => !command.Abort?
    case AbortFlag(_) => true
    case AbortData(_) => s.openAborts > 0
  }

  function Local(s: Sess, a: Action): Sess
    requires LocalEnabled(s, a)
  {
    match a
    case Enqueue(_) => s.(task := Queued)
    case Acquire(_) => s.(task := Holding)
    case Start(_) => s.(task := Started, evm := Running(0, false))
    case TakeReceiver(_) => s.(task := Waiting)
    case Receive(_) =>
      s.(task := Received(if s.channel.Some? then s.channel.value else DISCONNECTED), channel := None)
    case Store(_) => s.(task := Stored, data := StoreMessage(s.data, s.task.message))
    case ReadForCache(_) => s.(task := Read(ForCache(s.data)), inWindow := s.data.Ready? && s.openAborts > 0)
    case Save(_, _) => s.(task := Written)
    case Release(_) => s.(task := Task.Finished)
    case EvmStep(_, observed) =>
      s.(evm := if observed then Running(s.evm.steps, true) else Running(s.evm.steps + 1, false))
    case EvmSend(_, end) =>
      s.(evm := Sent(s.evm.steps, s.evm.halted, end), channel := Some(MessageOf(s.replay, s.evm.steps, end)))
    case EvmVanish(_) => s.(evm := Vanished)
    case Navigate(_, command) => s.(data := After(s.data, command))
    case AbortFlag(_) => s.(flag := true, openAborts := s.openAborts + 1)
    case AbortData(_) => s.(data := SessionData.Aborted, openAborts := s.openAborts - 1)
  }

  // ==== The whole system ====

  /** A restored session replays nothing; it belongs to the execution its file came from. */
  function NewSession(cache: map<string, Entry>, path: string, replay: Replay): Sess {
    if path in cache
    then Sess(path, cache[path].replay, FromCache(cache[path].file), false, 0, Restored, NotStarted, None, false)
    else Sess(path, replay, SessionData.Loading, false, 0, Spawned, NotStarted, None, false)
  }

  predicate Enabled(s: System, a: Action) {
    if a.Create? then true
    else
      && a.i < |s.sessions|
      && LocalEnabled(s.sessions[a.i], a)
      && (a.Acquire? ==> s.free > 0 && s.queue != [] && s.queue[0] == a.i)
  }

  function Do(s: System, a: Action): System
    requires Enabled(s, a)
  {
    if a.Create? then s.(sessions := s.sessions + [NewSession(s.cache, a.path, a.replay)])
    else
      var me := s.sessions[a.i];
      var moved := s.(sessions := s.sessions[a.i := Local(me, a)]);
      match a
      case Enqueue(i) => moved.(queue := s.queue + [i])
      case Acquire(i) => moved.(queue := s.queue[1..], free := s.free - 1)
      case Save(i, works) =>
        if works && me.task.file.Some?
        then moved.(cache := s.cache[me.path := Entry(me.task.file.value, i, me.replay)])
        else moved
      case Release(i) => moved.(free := s.free + 1)
      case _ => moved
  }

  /** A schedule that can run from `s`, and where it leads. */
  predicate Executable(s: System, run: seq<Action>)
    decreases |run|
  {
    run == [] || (Enabled(s, run[0]) && Executable(Do(s, run[0]), run[1..]))
  }

  function Exec(s: System, run: seq<Action>): System
    requires Executable(s, run)
    decreases |run|
  {
    if run == [] then s else Exec(Do(s, run[0]), run[1..])
  }

  lemma {:induction false} ExecThen(s: System, run: seq<Action>, a: Action)
    requires Executable(s, run) && Enabled(Exec(s, run), a)
    ensures Executable(s, run + [a]) && Exec(s, run + [a]) == Do(Exec(s, run), a)
    decreases |run|
  {
    if run == [] {
      assert [a][1..] == [] && run + [a] == [a];
    } else {
      assert (run + [a])[1..] == run[1..] + [a];
      ExecThen(Do(s, run[0]), run[1..], a);
    }
  }

  // ==== What each session keeps ====

  predicate HoldsPermit(s: Sess) {
    !(s.task.Restored? || s.task.Spawned? || s.task.Queued? || s.task.Finished?)
  }

  predicate EvmRuns(s: Sess) {
    s.evm.Running?
  }

  /** The abort flag cut this session's replay short. */
  predicate Halted(s: Sess) {
    (s.evm.Running? || s.evm.Sent?) && s.evm.halted
  }

  /** The session as it became when the message was stored, before any command. */
  function FirstData(s: Sess): SessionData {
    StoreMessage(SessionData.Loading, ThreadWord(s))
  }

  predicate Untouched(data: SessionData) {
    data.Loading? || data.Aborted?
  }

  /** Commands only move the index; an abort replaces the whole. */
  predicate Settled(s: Sess) {
    match s.data
    case Loading => false
    case Aborted => true
    case Error(_) => s.data == FirstData(s)
    case Ready(snapshots, index, result) => FirstData(s) == Ready(snapshots, 0, result) && index <= |snapshots|
  }

  /** The session's snapshots are the first steps of its execution. */
  predicate FromReplay(s: Sess) {
    s.data.Ready? ==>
      |s.data.snapshots| <= Steps(s.replay.root) && s.data.snapshots == Collected(s.replay, |s.data.snapshots|)
  }

  predicate TaskFits(s: Sess) {
    match s.task
    case Restored =>
      && s.evm.NotStarted? && s.channel.None?
      && (s.data.Aborted? || (s.data.Ready? && s.data.currentIndex <= |s.data.snapshots| && FromReplay(s)))
    case Spawned => s.evm.NotStarted? && s.channel.None? && Untouched(s.data)
    case Queued => s.evm.NotStarted? && s.channel.None? && Untouched(s.data)
    case Holding => s.evm.NotStarted? && s.channel.None? && Untouched(s.data)
    case Started => ChannelFits(s) && Untouched(s.data)
    case Waiting => ChannelFits(s) && Untouched(s.data)
    case Received(message) => ThreadGone(s) && message == ThreadWord(s) && Untouched(s.data)
    case Stored => ThreadGone(s) && Settled(s)
    case Read(file) => ThreadGone(s) && Settled(s) && (file.Some? ==> Saveable(s, file.value))
    case Written => ThreadGone(s) && Settled(s)
    case Finished => ThreadGone(s) && Settled(s)
  }

  predicate ChannelFits(s: Sess) {
    !s.evm.NotStarted? && s.channel == (if s.evm.Sent? then Some(ThreadWord(s)) else None)
  }

  predicate ThreadGone(s: Sess) {
    (s.evm.Sent? || s.evm.Vanished?) && s.channel.None?
  }

  /** The file restores the session as first ready; if the replay was cut short by an
      abort, it was read inside that abort's window. */
  predicate Saveable(s: Sess, file: TraceCacheFile) {
    s.evm.Sent? && FromCache(file) == FirstData(s) && (Halted(s) ==> s.inWindow)
  }

  predicate FlagFits(s: Sess) {
    && (Halted(s) ==> s.flag)
    && (s.openAborts > 0 || s.data.Aborted? ==> s.flag)
    && (s.flag ==> s.openAborts > 0 || s.data.Aborted?)
  }

  predicate EvmFits(s: Sess) {
    match s.evm
    case Running(steps, halted) => steps <= Steps(s.replay.root) && (halted ==> steps < Steps(s.replay.root))
    case Sent(steps, halted, end) =>
      && steps <= Steps(s.replay.root) && (halted ==> steps < Steps(s.replay.root))
      && EndAllowed(s.replay, steps, halted, end)
    case _ => true
  }

  predicate SessionInv(s: Sess) {
    TaskFits(s) && FlagFits(s) && EvmFits(s)
  }

  lemma EarlyTaskStepKeepsTask(s: Sess, a: Action)
    requires SessionInv(s) && LocalEnabled(s, a)
    requires a.Enqueue? || a.Acquire? || a.Start? || a.TakeReceiver?
    ensures TaskFits(Local(s, a))
  {
  }

  lemma MessageStepKeepsTask(s: Sess, a: Action)
    requires SessionInv(s) && LocalEnabled(s, a)
    requires a.Receive? || a.Store?
    ensures TaskFits(Local(s, a))
  {
  }

  lemma SavingStepKeepsTask(s: Sess, a: Action)
    requires SessionInv(s) && LocalEnabled(s, a)
    requires a.ReadForCache? || a.Save? || a.Release?
    ensures TaskFits(Local(s, a))
  {
  }

  lemma EvmStepKeepsTask(s: Sess, a: Action)
    requires SessionInv(s) && LocalEnabled(s, a)
    requires a.EvmStep? || a.EvmSend? || a.EvmVanish?
    ensures TaskFits(Local(s, a))
  {
    assert s.task.Started? || s.task.Waiting?;
  }

  lemma NavigateKeepsSettled(s: Sess, command: Command)
    requires Settled(s) && !command.Abort?
    ensures Settled(s.(data := After(s.data, command)))
  {
  }

  lemma CommandKeepsTask(s: Sess, a: Action)
    requires SessionInv(s) && LocalEnabled(s, a)
    requires a.Navigate? || a.AbortFlag? || a.AbortData?
    ensures TaskFits(Local(s, a))
  {
    if a.Navigate? && Settled(s) {
      NavigateKeepsSettled(s, a.command);
    }
  }

  lemma LocalKeepsTask(s: Sess, a: Action)
    requires SessionInv(s) && LocalEnabled(s, a)
    ensures TaskFits(Local(s, a))
  {
    match a {
      case Navigate(_, _) => CommandKeepsTask(s, a);
      case AbortFlag(_) => CommandKeepsTask(s, a);
      case AbortData(_) => CommandKeepsTask(s, a);
      case EvmStep(_, _) => EvmStepKeepsTask(s, a);
      case EvmSend(_, _) => EvmStepKeepsTask(s, a);
      case EvmVanish(_) => EvmStepKeepsTask(s, a);
      case ReadForCache(_) => SavingStepKeepsTask(s, a);
      case Save(_, _) => SavingStepKeepsTask(s, a);
      case Release(_) => SavingStepKeepsTask(s, a);
      case Receive(_) => MessageStepKeepsTask(s, a);
      case Store(_) => MessageStepKeepsTask(s, a);
      case _ => EarlyTaskStepKeepsTask(s, a);
    }
  }

  lemma LocalKeepsFlagAndEvm(s: Sess, a: Action)
    requires SessionInv(s) && LocalEnabled(s, a)
    ensures FlagFits(Local(s, a)) && EvmFits(Local(s, a))
  {
  }

  lemma LocalKeepsInv(s: Sess, a: Action)
    requires SessionInv(s) && LocalEnabled(s, a)
    ensures SessionInv(Local(s, a))
  {
    LocalKeepsTask(s, a);
    LocalKeepsFlagAndEvm(s, a);
  }
}
