/** What every reachable state of the protocol keeps: permits, the channel, the cache. */
module ProtocolSafety {
  import opened Types
  import opened CallTree
  import opened TreePaths
  import opened Inspector
  import opened Recording
  import opened Session
  import opened Navigation
  import opened StepOver
  import opened Executor
  import opened Protocol

  // ==== Counting sessions ====

  function Count(sessions: seq<Sess>, p: Sess -> bool): nat {
    if sessions == [] then 0
    else Count(sessions[..|sessions| - 1], p) + if p(sessions[|sessions| - 1]) then 1 else 0
  }

  lemma {:induction false} CountUpdate(sessions: seq<Sess>, p: Sess -> bool, i: nat, s: Sess)
    requires i < |sessions|
    ensures Count(sessions[i := s], p) + (if p(sessions[i]) then 1 else 0)
            == Count(sessions, p) + (if p(s) then 1 else 0)
    decreases |sessions|
  {
    var n := |sessions| - 1;
    if i == n {
      assert sessions[i := s][..n] == sessions[..n];
    } else {
      assert sessions[i := s][..n] == sessions[..n][i := s];
      CountUpdate(sessions[..n], p, i, s);
    }
  }

  lemma CountAppend(sessions: seq<Sess>, p: Sess -> bool, s: Sess)
    ensures Count(sessions + [s], p) == Count(sessions, p) + if p(s) then 1 else 0
  {
    assert (sessions + [s])[..|sessions|] == sessions;
  }

  lemma {:induction false} CountImplies(sessions: seq<Sess>, p: Sess -> bool, q: Sess -> bool)
    requires forall i :: 0 <= i < |sessions| ==> p(sessions[i]) ==> q(sessions[i])
    ensures Count(sessions, p) <= Count(sessions, q)
  {
    if sessions != [] {
      CountImplies(sessions[..|sessions| - 1], p, q);
    }
  }

  // ==== The invariant ====

  predicate NoDuplicates(queue: seq<nat>) {
    forall a, b :: 0 <= a < b < |queue| ==> queue[a] != queue[b]
  }

  predicate QueueFits(s: System) {
    && NoDuplicates(s.queue)
    && (forall j :: j in s.queue ==> j < |s.sessions| && s.sessions[j].task.Queued?)
    && (forall j :: 0 <= j < |s.sessions| && s.sessions[j].task.Queued? ==> j in s.queue)
  }

  predicate PermitsFit(s: System) {
    s.free + Count(s.sessions, HoldsPermit) == s.capacity
  }

  /** A saved file belongs to a session whose task has written it, restores that session
      as first ready, and is cut short only if it was read inside an abort's window. */
  predicate EntryFits(sessions: seq<Sess>, path: string, entry: Entry) {
    && entry.owner < |sessions|
    && var owner := sessions[entry.owner];
    && owner.path == path && owner.replay == entry.replay
    && (owner.task.Written? || owner.task.Finished?)
    && Saveable(owner, entry.file)
  }

  predicate CacheFits(s: System) {
    forall p :: p in s.cache ==> EntryFits(s.sessions, p, s.cache[p])
  }

  predicate SessionsFit(s: System) {
    forall j :: 0 <= j < |s.sessions| ==> SessionInv(s.sessions[j])
  }

  predicate Inv(s: System) {
    SessionsFit(s) && QueueFits(s) && PermitsFit(s) && CacheFits(s)
  }

  // ==== Every step keeps it ====

  /** Once written, a session keeps what its file depends on. */
  lemma WrittenIsStable(s: Sess, a: Action, file: TraceCacheFile)
    requires SessionInv(s) && LocalEnabled(s, a)
    requires s.task.Written? || s.task.Finished?
    ensures var s' := Local(s, a);
      && s'.path == s.path && s'.replay == s.replay && (s'.task.Written? || s'.task.Finished?)
      && (Saveable(s, file) ==> Saveable(s', file))
  {
  }

  lemma StepKeepsEntry(s: System, a: Action, path: string, entry: Entry)
    requires SessionsFit(s) && Enabled(s, a) && EntryFits(s.sessions, path, entry)
    ensures EntryFits(Do(s, a).sessions, path, entry)
  {
    if !a.Create? && a.i == entry.owner {
      WrittenIsStable(s.sessions[a.i], a, entry.file);
    }
  }

  lemma StepKeepsCache(s: System, a: Action)
    requires SessionsFit(s) && CacheFits(s) && Enabled(s, a)
    ensures CacheFits(Do(s, a))
  {
    var s' := Do(s, a);
    forall p | p in s'.cache
      ensures EntryFits(s'.sessions, p, s'.cache[p])
    {
      if p in s.cache && s'.cache[p] == s.cache[p] {
        StepKeepsEntry(s, a, p, s.cache[p]);
      } else {
        var owner := s.sessions[a.i];
        assert TaskFits(owner) && Saveable(owner, owner.task.file.value);
      }
    }
  }

  lemma CollectedIsPrefix(replay: Replay, steps: nat)
    requires steps <= Steps(replay.root)
    ensures Collected(replay, steps) <= FullTrace(replay.root, replay.maxMemory)
    ensures |Collected(replay, steps)| == steps
    ensures |FullTrace(replay.root, replay.maxMemory)| == Steps(replay.root)
  {
    AbortGivesPrefix(replay.root, replay.maxMemory, steps);
    AbortGivesPrefix(replay.root, replay.maxMemory, Steps(replay.root));
  }

  lemma SavedFileIsCollected(s: Sess, file: TraceCacheFile)
    requires SessionInv(s) && Saveable(s, file)
    ensures s.evm.Sent? && s.evm.end.Returned?
    ensures file.snapshots == Collected(s.replay, s.evm.steps)
    ensures file.result.Some? <==> s.evm.end.outcome.Ok?
  {
  }

  lemma RestoredSessionFits(s: System, path: string, replay: Replay)
    requires SessionsFit(s) && CacheFits(s)
    ensures SessionInv(NewSession(s.cache, path, replay))
  {
    if path in s.cache {
      var entry := s.cache[path];
      assert EntryFits(s.sessions, path, entry);
      var owner := s.sessions[entry.owner];
      SavedFileIsCollected(owner, entry.file);
      CollectedIsPrefix(owner.replay, owner.evm.steps);
    }
  }

  lemma StepKeepsSessions(s: System, a: Action)
    requires SessionsFit(s) && CacheFits(s) && Enabled(s, a)
    ensures SessionsFit(Do(s, a))
  {
    if a.Create? {
      RestoredSessionFits(s, a.path, a.replay);
    } else {
      LocalKeepsInv(s.sessions[a.i], a);
    }
  }

  lemma StepKeepsPermits(s: System, a: Action)
    requires PermitsFit(s) && Enabled(s, a)
    ensures PermitsFit(Do(s, a)) && Do(s, a).capacity == s.capacity
  {
    if a.Create? {
      CountAppend(s.sessions, HoldsPermit, NewSession(s.cache, a.path, a.replay));
    } else {
      CountUpdate(s.sessions, HoldsPermit, a.i, Local(s.sessions[a.i], a));
    }
  }

  lemma StepKeepsQueue(s: System, a: Action)
    requires QueueFits(s) && Enabled(s, a)
    ensures QueueFits(Do(s, a))
  {
    var s' := Do(s, a);
    if a.Enqueue? {
      assert s'.queue[|s.queue|] == a.i;
      assert forall j :: j in s'.queue <==> j in s.queue || j == a.i;
    } else if a.Acquire? {
      assert s.queue == [a.i] + s'.queue;
      assert a.i !in s'.queue;
    }
  }

  lemma StepKeepsInv(s: System, a: Action)
    requires Inv(s) && Enabled(s, a)
    ensures Inv(Do(s, a)) && Do(s, a).capacity == s.capacity
  {
    StepKeepsSessions(s, a);
    StepKeepsQueue(s, a);
    StepKeepsPermits(s, a);
    StepKeepsCache(s, a);
  }

  lemma {:induction false} RunKeepsInv(s: System, run: seq<Action>)
    requires Inv(s) && Executable(s, run)
    ensures Inv(Exec(s, run)) && Exec(s, run).capacity == s.capacity
    decreases |run|
  {
    if run != [] {
      StepKeepsInv(s, run[0]);
      RunKeepsInv(Do(s, run[0]), run[1..]);
    }
  }

  /** Every state any schedule reaches satisfies the invariant. */
  lemma ReachableInv(capacity: nat, run: seq<Action>)
    requires Executable(Init(capacity), run)
    ensures Inv(Exec(Init(capacity), run)) && Exec(Init(capacity), run).capacity == capacity
  {
    RunKeepsInv(Init(capacity), run);
  }

  // ==== Permits and the channel ====

  /** Free and held permits add up to the configured concurrency in every reachable state,
      and at most that many EVM threads have yet to send, aborted sessions included. */
  lemma ConcurrencyIsBounded(capacity: nat, run: seq<Action>)
    requires Executable(Init(capacity), run)
    ensures var s := Exec(Init(capacity), run);
      && s.free + Count(s.sessions, HoldsPermit) == capacity
      && Count(s.sessions, EvmRuns) <= Count(s.sessions, HoldsPermit) <= capacity
  {
    ReachableInv(capacity, run);
    CountImplies(Exec(Init(capacity), run).sessions, EvmRuns, HoldsPermit);
  }

  /** A thread that has yet to send finds the channel empty, so its one send never blocks. */
  lemma SendNeverBlocks(capacity: nat, run: seq<Action>, i: nat)
    requires Executable(Init(capacity), run)
    requires i < |Exec(Init(capacity), run).sessions|
    ensures var s := Exec(Init(capacity), run).sessions[i];
      && (s.evm.Running? ==> s.channel == None)
      && (s.channel.Some? ==> s.evm.Sent? && s.channel == Some(ThreadWord(s)))
  {
    ReachableInv(capacity, run);
  }

  // ==== What gets cached ====

  /** Whatever one EVM thread can send, the protocol's thread can: the replay may be
      halted at any step `k`, and may die with an error after any `m` hooks. */
  lemma EveryThreadMessageIsModelled(
      setup: Setup, replay: Replay, k: nat, m: nat, outcome: Result<ExecutionResult>)
    returns (steps: nat, halted: bool, end: ThreadEnd)
    requires var hooks := RunFrame(replay.root, 0, k).0;
      m <= |hooks| && (outcome.Ok? ==> m == |hooks|)
    ensures steps <= Steps(replay.root) && (halted ==> steps < Steps(replay.root))
    ensures EndAllowed(replay, steps, halted, end)
    ensures ThreadMessage(setup, replay.maxMemory, RunFrame(replay.root, 0, k).0[..m], outcome)
            == MessageOf(replay, steps, end)
  {
    var root, hooks := replay.root, RunFrame(replay.root, 0, k).0;
    if SetupError(setup).Some? {
      return 0, false, SetupFailed(SetupError(setup).value);
    }
    var recorded := ApplyAll(NewRecorder(replay.maxMemory), hooks[..m]).snapshots;
    FatalErrorGivesPrefix(root, replay.maxMemory, k, m);
    CollectedIsPrefix(replay, |recorded|);
    assert recorded == Collected(replay, |recorded|);
    if m == |hooks| {
      assert hooks[..m] == hooks;
      AbortGivesPrefix(root, replay.maxMemory, k);
    }
    return |recorded|, |recorded| == k < Steps(root), Returned(outcome);
  }

  /** In every reachable state: a cached file is a prefix of its owner's whole trace; an
      abort cut it short only if it was read while that abort had stored the flag and not
      yet the data. It is whole exactly when the replay recorded its last step; with a
      result, exactly when the replay did not observe the flag. It carries no result
      exactly when the replay died with an error. */
  lemma CutTracesComeFromTheWindow(capacity: nat, run: seq<Action>, path: string)
    requires Executable(Init(capacity), run)
    requires path in Exec(Init(capacity), run).cache
    ensures var s := Exec(Init(capacity), run);
      var entry := s.cache[path];
      && entry.owner < |s.sessions|
      && var owner := s.sessions[entry.owner];
      var whole := FullTrace(owner.replay.root, owner.replay.maxMemory);
      && entry.file.snapshots <= whole
      && owner.evm.Sent? && owner.evm.end.Returned?
      && (entry.file.snapshots == whole <==> owner.evm.steps == Steps(owner.replay.root))
      && (Halted(owner) ==> owner.inWindow && |entry.file.snapshots| < |whole|)
      && (entry.file.result.None? <==> owner.evm.end.outcome.Err?)
      && (entry.file.result.Some? ==> (entry.file.snapshots == whole <==> !Halted(owner)))
  {
    ReachableInv(capacity, run);
    var s := Exec(Init(capacity), run);
    assert EntryFits(s.sessions, path, s.cache[path]);
    var owner := s.sessions[s.cache[path].owner];
    SavedFileIsCollected(owner, s.cache[path].file);
    CollectedIsPrefix(owner.replay, owner.evm.steps);
    CollectedIsPrefix(owner.replay, Steps(owner.replay.root));
  }

  /** `inWindow` is set by a read exactly when it finds a ready session whose flag an
      abort has already stored: that abort's data store is still to come. */
  lemma WindowIsBetweenTheTwoWrites(capacity: nat, run: seq<Action>, i: nat)
    requires Executable(Init(capacity), run)
    requires Enabled(Exec(Init(capacity), run), ReadForCache(i))
    ensures var s := Exec(Init(capacity), run);
      var read := Do(s, ReadForCache(i)).sessions[i];
      && (read.inWindow <==> s.sessions[i].data.Ready? && s.sessions[i].flag)
      && (read.inWindow ==> s.sessions[i].openAborts > 0)
      && (read.task.file.Some? && Halted(s.sessions[i]) ==> read.inWindow)
  {
    ReachableInv(capacity, run);
  }

  // ---- Atomic aborts ----

  /** A schedule in which every abort makes its two writes back to back. */
  predicate AtomicAborts(run: seq<Action>) {
    forall t :: 0 <= t < |run| && run[t].AbortFlag? ==> t + 1 < |run| && run[t + 1] == AbortData(run[t].i)
  }

  predicate NoWindow(s: System) {
    forall j :: 0 <= j < |s.sessions| ==> s.sessions[j].openAborts == 0 && !s.sessions[j].inWindow
  }

  lemma {:induction false} AtomicRunHasNoWindow(s: System, run: seq<Action>)
    requires NoWindow(s) && Executable(s, run) && AtomicAborts(run)
    ensures NoWindow(Exec(s, run))
    decreases |run|
  {
    if run != [] {
      var s1 := Do(s, run[0]);
      if run[0].AbortFlag? {
        assert run[1..][0] == AbortData(run[0].i);
        AtomicRunHasNoWindow(Do(s1, run[1]), run[1..][1..]);
      } else {
        AtomicRunHasNoWindow(s1, run[1..]);
      }
    }
  }

  /** With the two writes made atomic, no cached trace was cut short by an abort. */
  lemma AtomicAbortsSaveOnlyWholeTraces(capacity: nat, run: seq<Action>, path: string)
    requires Executable(Init(capacity), run) && AtomicAborts(run)
    requires path in Exec(Init(capacity), run).cache
    ensures var s := Exec(Init(capacity), run);
      var entry := s.cache[path];
      && entry.owner < |s.sessions|
      && var owner := s.sessions[entry.owner];
      && !Halted(owner)
      && (entry.file.result.Some? ==>
            entry.file.snapshots == FullTrace(owner.replay.root, owner.replay.maxMemory))
  {
    AtomicRunHasNoWindow(Init(capacity), run);
    CutTracesComeFromTheWindow(capacity, run, path);
  }

  // ==== Aborted is absorbing ====

  lemma {:induction false} AbortedForEver(s: System, run: seq<Action>, i: nat)
    requires Executable(s, run) && i < |s.sessions| && s.sessions[i].data.Aborted?
    ensures i < |Exec(s, run).sessions| && Exec(s, run).sessions[i].data == SessionData.Aborted
    decreases |run|
  {
    if run != [] {
      AbortedForEver(Do(s, run[0]), run[1..], i);
    }
  }

  /** After an abort's data store no schedule changes the session: late messages, even
      one already received, stores, steps and polls all find and leave it aborted. */
  lemma {:induction false} AbortAbsorbs(s: System, i: nat, run: seq<Action>, commands: seq<Command>)
    requires Enabled(s, AbortData(i)) && Executable(Do(s, AbortData(i)), run)
    ensures var later := Exec(Do(s, AbortData(i)), run);
      && i < |later.sessions|
      && CurrentState(later.sessions[i].data) == SessionState.Aborted
      && (forall message :: StoreMessage(later.sessions[i].data, message) == SessionData.Aborted
                         && StoreAnswer(later.sessions[i].data, message) == SessionState.Aborted)
      && (forall n :: 0 <= n < |commands| && !commands[n].Abort? && !commands[n].TraceSteps? ==>
            Answers(later.sessions[i].data, commands)[n] == State(SessionState.Aborted))
  {
    AbortedForEver(Do(s, AbortData(i)), run, i);
    AbortedAbsorbs(SessionData.Aborted, commands);
  }

  // ==== Warm equals cold ====

  /** In every reachable state a session restored from a cached file is the session that
      saved it, as it first became ready, and answers every command sequence alike,
      whatever commands moved that session before its file was read. */
  lemma WarmEqualsCold(capacity: nat, run: seq<Action>, path: string, replay: Replay, commands: seq<Command>)
    requires Executable(Init(capacity), run)
    requires path in Exec(Init(capacity), run).cache
    ensures var s := Exec(Init(capacity), run);
      var s' := Do(s, Create(path, replay));
      var warm := s'.sessions[|s.sessions|];
      && s.cache[path].owner < |s.sessions|
      && var cold := FirstData(s.sessions[s.cache[path].owner]);
      && warm.task.Restored?
      && warm.data == cold && cold.Ready? && cold.currentIndex == 0
      && Answers(warm.data, commands) == Answers(cold, commands)
  {
    ReachableInv(capacity, run);
    var s := Exec(Init(capacity), run);
    assert EntryFits(s.sessions, path, s.cache[path]);
  }

  // ==== Stepping over, end to end ====

  lemma ReadyIsFromReplay(s: Sess)
    requires SessionInv(s) && s.data.Ready?
    ensures FromReplay(s) && s.data.currentIndex <= |s.data.snapshots|
  {
    if !s.task.Restored? {
      CollectedIsPrefix(s.replay, s.evm.steps);
    }
  }

  /** In every reachable state, for every ready session, fresh or restored, whole or cut
      short: the index points at an instruction of the session's call tree, and stepping
      over moves it to that instruction's step-over target, or to the end. */
  lemma EverySessionStepsOverCalls(capacity: nat, run: seq<Action>, i: nat)
    requires Executable(Init(capacity), run) && i < |Exec(Init(capacity), run).sessions|
    requires var data := Exec(Init(capacity), run).sessions[i].data;
      data.Ready? && data.currentIndex < |data.snapshots|
    ensures var me := Exec(Init(capacity), run).sessions[i];
      var code := FrameCode(me.replay.root);
      && me.data.currentIndex < Size(code)
      && var p := PathAt(code, me.data.currentIndex);
      && Valid(code, p) && Position(code, p) == me.data.currentIndex
      && Session.After(me.data, Command.StepOver)
         == me.data.(currentIndex := Landing(code, p, |me.data.snapshots|))
      && var step := Navigate(i, Command.StepOver);
      && Enabled(Exec(Init(capacity), run), step)
      && Do(Exec(Init(capacity), run), step).sessions[i].data
         == me.data.(currentIndex := Landing(code, p, |me.data.snapshots|))
  {
    ReachableInv(capacity, run);
    var me := Exec(Init(capacity), run).sessions[i];
    ReadyIsFromReplay(me);
    RecorderAndNavigatorAgree(me.replay.root, me.replay.maxMemory, |me.data.snapshots|, me.data.currentIndex);
  }
}
