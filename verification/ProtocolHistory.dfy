/** What clients see, in terms of what was done: in every schedule a session's data is what
    its own commands make of the trace its thread sent, whatever else was interleaved. */
module ProtocolHistory {
  import opened Types
  import opened CallTree
  import opened Recording
  import opened Session
  import opened Executor
  import opened Protocol
  import opened ProtocolSafety
  import opened AbortWindow

  // ==== Histories ====

  /** The commands to session `i` since its message was stored; of a restored session, all. */
  function Since(run: seq<Action>, i: nat): seq<Command> {
    if run == [] then []
    else
      var (rest, a) := (run[..|run| - 1], run[|run| - 1]);
      if a == Store(i) then []
      else if a.Navigate? && a.i == i then Since(rest, i) + [a.command]
      else Since(rest, i)
  }

  predicate PastStore(task: Task) {
    task.Stored? || task.Read? || task.Written? || task.Finished?
  }

  /** What the actions of `run` have made of session `i`. */
  ghost predicate Follows(s: Sess, run: seq<Action>, i: nat) {
    && (PastStore(s.task) <==> Store(i) in run)
    && (s.data.Aborted? <==> AbortData(i) in run)
    && (s.data.Ready? ==> s.data == AfterAll(Ready(s.data.snapshots, 0, s.data.result), Since(run, i)))
  }

  ghost predicate AllFollow(s: System, run: seq<Action>) {
    && (forall a :: a in run && !a.Create? ==> a.i < |s.sessions|)
    && forall i :: 0 <= i < |s.sessions| ==> Follows(s.sessions[i], run, i)
  }

  lemma SinceOne(run: seq<Action>, a: Action, i: nat)
    ensures Since(run + [a], i)
            == if a == Store(i) then []
               else if a.Navigate? && a.i == i then Since(run, i) + [a.command]
               else Since(run, i)
  {
    assert (run + [a])[..|run|] == run;
  }

  lemma {:induction false} SinceNothing(run: seq<Action>, i: nat)
    requires forall a :: a in run && !a.Create? ==> a.i != i
    ensures Since(run, i) == []
  {
    if run != [] {
      var last := run[|run| - 1];
      assert last in run;
      forall a | a in run[..|run| - 1] && !a.Create?
        ensures a.i != i
      {
        assert a in run;
      }
      SinceNothing(run[..|run| - 1], i);
    }
  }

  lemma {:induction false} AfterOneMore(data: SessionData, commands: seq<Command>, command: Command)
    ensures AfterAll(data, commands + [command]) == After(AfterAll(data, commands), command)
    decreases |commands|
  {
    if commands == [] {
      assert [command][1..] == [] && commands + [command] == [command];
    } else {
      assert (commands + [command])[1..] == commands[1..] + [command];
      AfterOneMore(After(data, commands[0]), commands[1..], command);
    }
  }

  // ==== One step ====

  lemma OtherSessionFollows(s: Sess, run: seq<Action>, a: Action, i: nat)
    requires Follows(s, run, i) && (a.Create? || a.i != i)
    ensures Follows(s, run + [a], i)
  {
    SinceOne(run, a, i);
  }

  lemma NewSessionFollows(s: System, run: seq<Action>, a: Action)
    requires AllFollow(s, run) && a.Create?
    ensures Follows(NewSession(s.cache, a.path, a.replay), run + [a], |s.sessions|)
  {
    SinceNothing(run, |s.sessions|);
    SinceOne(run, a, |s.sessions|);
  }

  lemma NavigatedSessionFollows(s: Sess, run: seq<Action>, a: Action, i: nat)
    requires Follows(s, run, i) && a.Navigate? && a.i == i && LocalEnabled(s, a)
    ensures Follows(Local(s, a), run + [a], i)
  {
    SinceOne(run, a, i);
    if s.data.Ready? {
      AfterOneMore(Ready(s.data.snapshots, 0, s.data.result), Since(run, i), a.command);
    }
  }

  lemma StoredSessionFollows(s: Sess, run: seq<Action>, a: Action, i: nat)
    requires SessionInv(s) && Follows(s, run, i) && a == Store(i) && LocalEnabled(s, a)
    ensures Follows(Local(s, a), run + [a], i)
  {
    SinceOne(run, a, i);
  }

  lemma SteppedSessionFollows(s: Sess, run: seq<Action>, a: Action, i: nat)
    requires SessionInv(s) && Follows(s, run, i) && LocalEnabled(s, a) && a.i == i
    requires !a.Navigate? && !a.Store?
    ensures Follows(Local(s, a), run + [a], i)
  {
    SinceOne(run, a, i);
  }

  lemma StepExtendsHistory(s: System, run: seq<Action>, a: Action)
    requires Inv(s) && AllFollow(s, run) && Enabled(s, a)
    ensures AllFollow(Do(s, a), run + [a])
  {
    var s' := Do(s, a);
    forall i | 0 <= i < |s'.sessions|
      ensures Follows(s'.sessions[i], run + [a], i)
    {
      if i == |s.sessions| {
        NewSessionFollows(s, run, a);
      } else if a.Create? || a.i != i {
        OtherSessionFollows(s.sessions[i], run, a, i);
      } else if a.Navigate? {
        NavigatedSessionFollows(s.sessions[i], run, a, i);
      } else if a.Store? {
        StoredSessionFollows(s.sessions[i], run, a, i);
      } else {
        SteppedSessionFollows(s.sessions[i], run, a, i);
      }
    }
  }

  ghost predicate Tracked(s: System, run: seq<Action>) {
    Inv(s) && AllFollow(s, run)
  }

  lemma StepKeepsTrack(s: System, run: seq<Action>, a: Action)
    requires Tracked(s, run) && Enabled(s, a)
    ensures Tracked(Do(s, a), run + [a])
  {
    StepExtendsHistory(s, run, a);
    StepKeepsInv(s, a);
  }

  lemma MoveOneOver(before: seq<Action>, run: seq<Action>)
    requires run != []
    ensures before + [run[0]] + run[1..] == before + run
  {
  }

  lemma {:induction false} RunKeepsTrack(s: System, before: seq<Action>, run: seq<Action>)
    requires Tracked(s, before) && Executable(s, run)
    ensures Tracked(Exec(s, run), before + run)
    decreases |run|
  {
    if run == [] {
      assert before + run == before;
    } else {
      StepKeepsTrack(s, before, run[0]);
      MoveOneOver(before, run);
      RunKeepsTrack(Do(s, run[0]), before + [run[0]], run[1..]);
    }
  }

  lemma SessionIsTracked(capacity: nat, run: seq<Action>, i: nat)
    requires Executable(Init(capacity), run) && i < |Exec(Init(capacity), run).sessions|
    ensures SessionInv(Exec(Init(capacity), run).sessions[i]) && Follows(Exec(Init(capacity), run).sessions[i], run, i)
  {
    RunKeepsTrack(Init(capacity), [], run);
    assert [] + run == run;
  }

  /** In every schedule every session's data is what its own history makes it: aborted
      exactly if an abort stored its data; once ready, at the index to which the session's
      own commands since then lead from the start of its trace. */
  lemma DataFollowsOwnCommands(capacity: nat, run: seq<Action>, i: nat)
    requires Executable(Init(capacity), run) && i < |Exec(Init(capacity), run).sessions|
    ensures var me := Exec(Init(capacity), run).sessions[i];
      && (me.data.Aborted? <==> AbortData(i) in run)
      && (me.data.Loading? <==> !me.task.Restored? && Store(i) !in run && AbortData(i) !in run)
      && (me.data.Ready? ==>
            me.data == AfterAll(Ready(me.data.snapshots, 0, me.data.result), Since(run, i)))
  {
    SessionIsTracked(capacity, run, i);
    LoadingUntilStored(Exec(Init(capacity), run).sessions[i], run, i);
  }

  lemma LoadingUntilStored(me: Sess, run: seq<Action>, i: nat)
    requires SessionInv(me) && Follows(me, run, i)
    ensures me.data.Loading? <==> !me.task.Restored? && Store(i) !in run && AbortData(i) !in run
    ensures !me.task.Restored? && Store(i) in run ==> ThreadGone(me) && Settled(me)
  {
  }

  // ==== What a poll answers ====

  /** The answer the thread's last word calls for, at `index` of the trace. */
  ghost predicate AnswersFor(me: Sess, answer: SessionState, index: nat) {
    match me.evm
    case Vanished => answer == SessionState.Error("EVM thread disconnected")
    case Sent(steps, _, SetupFailed(text)) => answer == SessionState.Error(text)
    case Sent(steps, _, Returned(outcome)) =>
      var whole := FullTrace(me.replay.root, me.replay.maxMemory);
      if outcome.Err? && steps == 0 then answer == SessionState.Error(outcome.message)
      else if index < steps then index < |whole| && answer == SessionState.Paused(whole[index])
      else if outcome.Ok? then answer.Finished? && ReportsResult(answer.result, outcome.value)
      else answer == SessionState.Aborted
    case _ => false
  }

  lemma FirstDataAnswers(me: Sess, index: nat)
    requires SessionInv(me) && ThreadGone(me)
    requires var data := FirstData(me);
      data.Ready? ==> index <= |data.snapshots|
    ensures var data := FirstData(me);
      AnswersFor(me, CurrentState(if data.Ready? then data.(currentIndex := index) else data), index)
  {
    if me.evm.Sent? {
      CollectedIsPrefix(me.replay, me.evm.steps);
      if me.evm.end.Returned? && me.evm.end.outcome.Ok? {
        ResultIsReported(me.evm.end.outcome.value);
      }
    }
  }

  lemma SettledIsMovedFirstData(me: Sess)
    requires Settled(me) && !me.data.Aborted?
    ensures var data := FirstData(me);
      me.data == if me.data.Ready? && data.Ready? then data.(currentIndex := me.data.currentIndex) else data
    ensures me.data.Ready? <==> FirstData(me).Ready?
    ensures me.data.Ready? ==> me.data.currentIndex <= |me.data.snapshots| == |FirstData(me).snapshots|
  {
  }

  /** A poll of a session that was not restored, in every schedule: Aborted once an abort
      has stored its data; Loading until the message is stored; from then on the error the
      thread met, the snapshot of the execution's own trace at the session's index, or at
      the end of what was recorded the outcome the replay returned. */
  lemma PollTellsWhatHappened(capacity: nat, run: seq<Action>, i: nat)
    requires Executable(Init(capacity), run) && i < |Exec(Init(capacity), run).sessions|
    requires !Exec(Init(capacity), run).sessions[i].task.Restored?
    ensures var me := Exec(Init(capacity), run).sessions[i];
      && Answer(me.data, Poll).State?
      && var answer := Answer(me.data, Poll).state;
      && (AbortData(i) in run ==> answer == SessionState.Aborted)
      && (AbortData(i) !in run && Store(i) !in run ==> answer == SessionState.Loading)
      && (AbortData(i) !in run && Store(i) in run ==>
            AnswersFor(me, answer, if me.data.Ready? then me.data.currentIndex else 0))
  {
    var me := Exec(Init(capacity), run).sessions[i];
    SessionIsTracked(capacity, run, i);
    LoadingUntilStored(me, run, i);
    if AbortData(i) !in run && Store(i) in run {
      SettledIsMovedFirstData(me);
      FirstDataAnswers(me, if me.data.Ready? then me.data.currentIndex else 0);
    }
  }

  // ==== One command ====

  /** A command in the protocol moves its own session as the session's method does, and
      touches nothing else. */
  lemma CommandMovesOnlyItsSession(s: System, i: nat, command: Command)
    requires Enabled(s, Navigate(i, command))
    ensures var s' := Do(s, Navigate(i, command));
      && s' == s.(sessions := s.sessions[i := s.sessions[i].(data := s'.sessions[i].data)])
      && var (data, data') := (s.sessions[i].data, s'.sessions[i].data);
      && (!data.Ready? ==> data' == data)
      && (data.Ready? && command.StepInto? ==>
            data' == data.(currentIndex := if data.currentIndex < |data.snapshots| then data.currentIndex + 1
                                           else |data.snapshots|))
      && (data.Ready? && command.Continue? ==> data' == data.(currentIndex := |data.snapshots|))
      && (command.Poll? || command.TraceSteps? ==> data' == data)
  {
  }

  // ==== The cache ====

  /** Step `a` writes the file that session `a.i` read for this path. */
  predicate Writes(s: System, a: Action, path: string) {
    && a.Save? && a.works && a.i < |s.sessions|
    && s.sessions[a.i].path == path && s.sessions[a.i].task.Read? && s.sessions[a.i].task.file.Some?
  }

  /** A working save writes its session's file under its session's path, and nothing else
      ever changes what is cached under any path. */
  lemma OnlySavesChangeTheCache(s: System, a: Action, path: string)
    requires Enabled(s, a)
    ensures var s' := Do(s, a);
      if Writes(s, a, path)
      then path in s'.cache && s'.cache[path] == Entry(s.sessions[a.i].task.file.value, a.i, s.sessions[a.i].replay)
      else (path in s'.cache <==> path in s.cache) && (path in s.cache ==> s'.cache[path] == s.cache[path])
  {
  }

  /** Once a path is cached, every later session on it is restored, in every schedule. */
  lemma {:induction false} CachedForGood(s: System, run: seq<Action>, path: string, replay: Replay)
    requires Executable(s, run) && path in s.cache
    ensures var later := Exec(s, run);
      && path in later.cache
      && Do(later, Create(path, replay)).sessions[|later.sessions|].data.Ready?
      && Do(later, Create(path, replay)).sessions[|later.sessions|].task.Restored?
    decreases |run|
  {
    if run != [] {
      OnlySavesChangeTheCache(s, run[0], path);
      CachedForGood(Do(s, run[0]), run[1..], path, replay);
    }
  }

  // ==== Moving before the file is read ====

  lemma StepIntoMoves(me: Sess, j: nat)
    requires me.data.Ready? && me.data.currentIndex == j < |me.data.snapshots|
    ensures LocalEnabled(me, Navigate(0, StepInto))
    ensures Local(me, Navigate(0, StepInto)) == me.(data := me.data.(currentIndex := j + 1))
  {
  }

  lemma {:induction false} StepToIndex(run: seq<Action>, me: Sess, j: nat) returns (moved: seq<Action>)
    requires Executable(Init(1), run) && Exec(Init(1), run) == Solo(me, 0, [], map[])
    requires me.data.Ready? && me.data.currentIndex == 0 && j <= |me.data.snapshots|
    ensures Executable(Init(1), moved)
    ensures Exec(Init(1), moved) == Solo(me.(data := me.data.(currentIndex := j)), 0, [], map[])
    ensures NoAborts(run) ==> NoAborts(moved)
    ensures ReadForCache(0) !in run ==> ReadForCache(0) !in moved
    decreases j
  {
    if j == 0 {
      moved := run;
      assert me.(data := me.data.(currentIndex := 0)) == me;
    } else {
      moved := StepToIndex(run, me, j - 1);
      StepIntoMoves(me.(data := me.data.(currentIndex := j - 1)), j - 1);
      SoloStep(moved, me.(data := me.data.(currentIndex := j - 1)), Navigate(0, StepInto));
      moved := moved + [Navigate(0, StepInto)];
    }
  }

  /** A session alone, ready with the whole trace of its execution. */
  function ReadyWhole(path: string, replay: Replay, result: ExecutionResult): Sess {
    var n := Steps(replay.root);
    Midway(path, replay, n).(
      task := Stored, evm := Sent(n, false, Returned(Ok(result))),
      data := Ready(Collected(replay, n), 0, Some(ResultInfo(result))))
  }

  lemma ReachReadyWhole(path: string, replay: Replay, result: ExecutionResult) returns (run: seq<Action>)
    ensures Executable(Init(1), run) && NoAborts(run) && ReadForCache(0) !in run
    ensures Exec(Init(1), run) == Solo(ReadyWhole(path, replay, result), 0, [], map[])
  {
    var n, end := Steps(replay.root), Returned(Ok(result));
    run := ReachMidway(path, replay, n);
    var me := Midway(path, replay, n);
    SoloStep(run, me, EvmSend(0, end));
    run, me := run + [EvmSend(0, end)], Local(me, EvmSend(0, end));
    SoloStep(run, me, TakeReceiver(0));
    run, me := run + [TakeReceiver(0)], Local(me, TakeReceiver(0));
    SoloStep(run, me, Receive(0));
    run, me := run + [Receive(0)], Local(me, Receive(0));
    SoloStep(run, me, Store(0));
    run, me := run + [Store(0)], Local(me, Store(0));
  }

  /** For every execution and every index `j` some schedule moves the session to `j` before
      its file is read, and the file is still the whole trace, from whose start the next
      session on that path begins. */
  lemma MovedSessionIsSavedWhole(path: string, replay: Replay, j: nat, result: ExecutionResult)
    returns (moved: seq<Action>)
    requires j <= Steps(replay.root)
    ensures Executable(Init(1), moved) && NoAborts(moved) && ReadForCache(0) !in moved
    ensures var s := Exec(Init(1), moved);
      && |s.sessions| == 1 && s.sessions[0].data.Ready?
      && s.sessions[0].data.snapshots == FullTrace(replay.root, replay.maxMemory)
      && s.sessions[0].data.currentIndex == j
    ensures var saving := [ReadForCache(0), Save(0, true)];
      && Executable(Init(1), moved + saving)
      && var s := Exec(Init(1), moved + saving);
      && path in s.cache && |s.sessions| == 1 && s.sessions[0].data.Ready? && s.sessions[0].data.currentIndex == j
      && var file := s.cache[path].file;
      && file.snapshots == FullTrace(replay.root, replay.maxMemory)
      && file.result.Some? && ReportsResult(file.result.value, result)
      && Do(s, Create(path, replay)).sessions[1].data == Ready(file.snapshots, 0, file.result)
  {
    var ready := ReachReadyWhole(path, replay, result);
    var me := ReadyWhole(path, replay, result);
    CollectedIsPrefix(replay, Steps(replay.root));
    ResultIsReported(result);
    moved := StepToIndex(ready, me, j);
    me := me.(data := me.data.(currentIndex := j));
    SoloStep(moved, me, ReadForCache(0));
    ExecThen(Init(1), moved + [ReadForCache(0)], Save(0, true));
    assert moved + [ReadForCache(0)] + [Save(0, true)] == moved + [ReadForCache(0), Save(0, true)];
  }
}
