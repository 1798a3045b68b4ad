/** Both ways a cut trace reaches the cache are real: through the gap between an abort's
    two writes, with a result as if it were whole, and after a replay error, without one. */
module AbortWindow {
  import opened Types
  import opened CallTree
  import opened Recording
  import opened Session
  import opened Executor
  import opened Protocol
  import opened ProtocolSafety

  /** A system of one permit whose only session is `me`. */
  function Solo(me: Sess, free: nat, queue: seq<nat>, cache: map<string, Entry>): System {
    System(1, free, queue, [me], cache)
  }

  function Fresh(path: string, replay: Replay): Sess {
    Sess(path, replay, SessionData.Loading, false, 0, Spawned, NotStarted, None, false)
  }

  /** One more step of the only session, when it touches neither queue, permits nor cache. */
  lemma SoloStep(run: seq<Action>, me: Sess, a: Action)
    requires Executable(Init(1), run) && Exec(Init(1), run) == Solo(me, 0, [], map[])
    requires LocalEnabled(me, a) && a.i == 0
    requires !(a.Create? || a.Enqueue? || a.Acquire? || a.Save? || a.Release?)
    ensures Executable(Init(1), run + [a])
    ensures Exec(Init(1), run + [a]) == Solo(Local(me, a), 0, [], map[])
  {
    ExecThen(Init(1), run, a);
  }

  predicate NoAborts(run: seq<Action>) {
    forall t :: 0 <= t < |run| ==> !run[t].AbortFlag? && !run[t].AbortData?
  }

  /** A session alone, its thread with `k` steps recorded and its abort not yet begun. */
  function Midway(path: string, replay: Replay, k: nat): Sess {
    Fresh(path, replay).(task := Started, evm := Running(k, false))
  }

  lemma {:induction false} ReachMidway(path: string, replay: Replay, k: nat) returns (run: seq<Action>)
    requires k <= Steps(replay.root)
    ensures Executable(Init(1), run) && Exec(Init(1), run) == Solo(Midway(path, replay, k), 0, [], map[])
    ensures NoAborts(run) && ReadForCache(0) !in run
  {
    if k == 0 {
      var s0 := Init(1);
      var me := Fresh(path, replay);
      run := [];
      ExecThen(s0, run, Create(path, replay));
      run := run + [Create(path, replay)];
      assert Exec(s0, run) == Solo(me, 1, [], map[]);
      ExecThen(s0, run, Enqueue(0));
      run := run + [Enqueue(0)];
      assert Exec(s0, run) == Solo(me.(task := Queued), 1, [0], map[]);
      ExecThen(s0, run, Acquire(0));
      run := run + [Acquire(0)];
      assert Exec(s0, run) == Solo(me.(task := Holding), 0, [], map[]);
      SoloStep(run, me.(task := Holding), Start(0));
      run := run + [Start(0)];
    } else {
      run := ReachMidway(path, replay, k - 1);
      SoloStep(run, Midway(path, replay, k - 1), EvmStep(0, false));
      run := run + [EvmStep(0, false)];
    }
  }

  /** The same session once the abort has stored the flag and the thread has halted and
      sent. */
  function HaltedAt(path: string, replay: Replay, k: nat, end: ThreadEnd): Sess {
    Midway(path, replay, k).(
      flag := true, openAborts := 1, evm := Sent(k, true, end), channel := Some(MessageOf(replay, k, end)))
  }

  lemma ReachHalted(path: string, replay: Replay, k: nat, end: ThreadEnd) returns (run: seq<Action>)
    requires k < Steps(replay.root) && end.Returned?
    ensures Executable(Init(1), run) && Exec(Init(1), run) == Solo(HaltedAt(path, replay, k, end), 0, [], map[])
  {
    run := ReachMidway(path, replay, k);
    var me := Midway(path, replay, k);
    SoloStep(run, me, AbortFlag(0));
    run, me := run + [AbortFlag(0)], me.(flag := true, openAborts := 1);
    SoloStep(run, me, EvmStep(0, true));
    run, me := run + [EvmStep(0, true)], me.(evm := Running(k, true));
    SoloStep(run, me, EvmSend(0, end));
    run := run + [EvmSend(0, end)];
  }

  /** The task takes the sent message, stores it and reads the session for the cache. */
  lemma ReachRead(sent: seq<Action>, me: Sess, message: ChannelMessage) returns (run: seq<Action>, read: Sess)
    requires Executable(Init(1), sent) && Exec(Init(1), sent) == Solo(me, 0, [], map[])
    requires me.task.Started? && me.channel == Some(message) && me.data.Loading?
    ensures Executable(Init(1), run) && Exec(Init(1), run) == Solo(read, 0, [], map[])
    ensures NoAborts(sent) ==> NoAborts(run)
    ensures read.path == me.path && read.openAborts == me.openAborts
    ensures read.data == StoreMessage(SessionData.Loading, message) && read.task == Read(ForCache(read.data))
  {
    run, read := sent, me;
    SoloStep(run, read, TakeReceiver(0));
    run, read := run + [TakeReceiver(0)], Local(read, TakeReceiver(0));
    SoloStep(run, read, Receive(0));
    run, read := run + [Receive(0)], Local(read, Receive(0));
    SoloStep(run, read, Store(0));
    run, read := run + [Store(0)], Local(read, Store(0));
    SoloStep(run, read, ReadForCache(0));
    run, read := run + [ReadForCache(0)], Local(read, ReadForCache(0));
  }

  /** For every execution and every step `k` of it there is a schedule that caches exactly
      the first `k` snapshots with a result, as if they were the whole trace, although the
      session itself ends up aborted; the next session on that path starts from them. */
  lemma AnyPrefixCanBeCached(path: string, replay: Replay, k: nat, result: ExecutionResult)
    returns (run: seq<Action>)
    requires k < Steps(replay.root)
    ensures Executable(Init(1), run) && path in Exec(Init(1), run).cache
    ensures var s := Exec(Init(1), run);
      var file := s.cache[path].file;
      && k < |FullTrace(replay.root, replay.maxMemory)|
      && file.snapshots == FullTrace(replay.root, replay.maxMemory)[..k]
      && file.result == Some(ResultInfo(result)) && ReportsResult(file.result.value, result)
      && |s.sessions| == 1 && s.sessions[0].data == SessionData.Aborted
      && Do(s, Create(path, replay)).sessions[1].data == FromCache(file)
  {
    var end, read := Returned(Ok(result)), Fresh(path, replay);
    run := ReachHalted(path, replay, k, end);
    run, read := ReachRead(run, HaltedAt(path, replay, k, end), MessageOf(replay, k, end));
    ExecThen(Init(1), run, Save(0, true));
    run := run + [Save(0, true)];
    ExecThen(Init(1), run, AbortData(0));
    run := run + [AbortData(0)];
    CollectedIsPrefix(replay, k);
    ResultIsReported(result);
  }

  /** A replay that dies with an error after recording `k` steps, at least one, also has
      them cached, with nobody aborting; they carry no result, and so both that session
      and the next one on its path answer Aborted once they reach the end. */
  lemma ErrorCutCanBeCached(path: string, replay: Replay, k: nat, text: string) returns (run: seq<Action>)
    requires 0 < k <= Steps(replay.root)
    ensures Executable(Init(1), run) && NoAborts(run) && path in Exec(Init(1), run).cache
    ensures var s := Exec(Init(1), run);
      var file := s.cache[path].file;
      && k <= |FullTrace(replay.root, replay.maxMemory)|
      && file.snapshots == FullTrace(replay.root, replay.maxMemory)[..k] && file.result == None
      && |s.sessions| == 1
      && var next := Do(s, Create(path, replay)).sessions[1].data;
      && s.sessions[0].data == next == FromCache(file)
      && Answer(next, Command.Continue) == State(SessionState.Aborted)
  {
    var end, me := Returned(Err(text)), Midway(path, replay, k);
    run := ReachMidway(path, replay, k);
    SoloStep(run, me, EvmSend(0, end));
    run, me := run + [EvmSend(0, end)], Local(me, EvmSend(0, end));
    CollectedIsPrefix(replay, k);
    run, me := ReachRead(run, me, MessageOf(replay, k, end));
    ExecThen(Init(1), run, Save(0, true));
    run := run + [Save(0, true)];
  }
}
