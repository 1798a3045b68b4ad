/** Infinite schedules: with a permit and weak fairness every background task ends and
    every session leaves Loading for good. Without a permit neither need happen. */
module ProtocolFairness {
  import opened CallTree
  import opened Session
  import opened Protocol
  import opened ProtocolSafety
  import opened ProtocolLiveness

  // ==== Schedules ====

  ghost predicate StepAt(st: nat -> System, act: nat -> Action, n: nat) {
    Enabled(st(n), act(n)) && st(n + 1) == Do(st(n), act(n))
  }

  /** An infinite schedule of the protocol with `capacity` permits. */
  ghost predicate Schedule(capacity: nat, st: nat -> System, act: nat -> Action) {
    st(0) == Init(capacity) && forall n: nat :: StepAt(st, act, n)
  }

  /** The background task or the EVM thread of session `j` has a step to take. */
  ghost predicate CanMove(s: System, j: nat) {
    exists a: Action :: Progress(a) && a.i == j && Enabled(s, a)
  }

  predicate Moves(a: Action, j: nat) {
    Progress(a) && a.i == j
  }

  /** At `m` session `j` has nothing to do, or takes a step. */
  ghost predicate NotStarved(st: nat -> System, act: nat -> Action, j: nat, m: nat) {
    CanMove(st(m), j) ==> Moves(act(m), j)
  }

  ghost predicate NotStarvedFrom(st: nat -> System, act: nat -> Action, j: nat, n: nat) {
    exists m: nat :: n <= m && NotStarved(st, act, j, m)
  }

  /** Weak fairness: no session's task and thread can move for ever without moving. It
      asks nothing of commands, aborts or creations. */
  ghost predicate WeaklyFair(st: nat -> System, act: nat -> Action) {
    forall j: nat, n: nat :: NotStarvedFrom(st, act, j, n)
  }

  predicate Past(s: System, i: nat) {
    i < |s.sessions| && !s.sessions[i].task.Spawned?
  }

  /** The session's task has ended, so it holds no permit; restored sessions have none. */
  predicate TaskOver(s: System, i: nat) {
    i < |s.sessions| && (s.sessions[i].task.Restored? || s.sessions[i].task.Finished?)
  }

  // ==== What a schedule keeps ====

  lemma {:induction false} ScheduleKeepsInv(capacity: nat, st: nat -> System, act: nat -> Action, n: nat)
    requires Schedule(capacity, st, act)
    ensures Inv(st(n)) && st(n).capacity == capacity
  {
    if n > 0 {
      ScheduleKeepsInv(capacity, st, act, n - 1);
      assert StepAt(st, act, n - 1);
      StepKeepsInv(st(n - 1), act(n - 1));
    }
  }

  // ==== Someone who blocks goes on blocking until it moves ====

  lemma BlockerStays(s: System, a: Action, i: nat, j: nat)
    requires Inv(s) && Enabled(s, a) && Blocks(s, i, j) && !Helps(s, i, a)
    ensures Blocks(Do(s, a), i, j)
  {
    var _ := BlockerCanMove(s, i, j);
    assert WaitsFor(s, i, i) && WaitsFor(s, i, j);
    assert !Moves(a, i) && !Moves(a, j);
    MoverOnlyMovesItself(s, a, i);
    MoverOnlyMovesItself(s, a, j);
    if s.sessions[i].task.Queued? && !HoldsPermit(s.sessions[j]) {
      assert !(a.Acquire?);
    }
  }

  /** Tasks move only by their own steps. */
  lemma MoverOnlyMovesItself(s: System, a: Action, j: nat)
    requires Enabled(s, a) && j < |s.sessions| && !Moves(a, j)
    ensures j < |Do(s, a).sessions| && Do(s, a).sessions[j].task == s.sessions[j].task
  {
  }

  /** A session that blocks `i` can move, its moves help `i`, and it blocks `i` until
      a step helps. */
  lemma BlocksUntilHelped(capacity: nat, st: nat -> System, act: nat -> Action, i: nat, j: nat, n: nat)
    requires Schedule(capacity, st, act) && Blocks(st(n), i, j)
    ensures CanMove(st(n), j)
    ensures Moves(act(n), j) ==> Helps(st(n), i, act(n))
    ensures Helps(st(n), i, act(n)) || Blocks(st(n + 1), i, j)
  {
    ScheduleKeepsInv(capacity, st, act, n);
    assert StepAt(st, act, n);
    var a := BlockerCanMove(st(n), i, j);
    assert WaitsFor(st(n), i, j);
    if !Helps(st(n), i, act(n)) {
      BlockerStays(st(n), act(n), i, j);
    }
  }

  lemma {:induction false} FindHelp(
      capacity: nat, st: nat -> System, act: nat -> Action, i: nat, j: nat, n: nat, end: nat) returns (m: nat)
    requires Schedule(capacity, st, act) && n <= end
    requires Blocks(st(n), i, j) && NotStarved(st, act, j, end)
    ensures n <= m && Helps(st(m), i, act(m))
    decreases end - n
  {
    BlocksUntilHelped(capacity, st, act, i, j, n);
    if Helps(st(n), i, act(n)) {
      m := n;
    } else {
      assert n < end;
      m := FindHelp(capacity, st, act, i, j, n + 1, end);
    }
  }

  lemma {:induction false} RankAlong(capacity: nat, st: nat -> System, act: nat -> Action, i: nat, n: nat, m: nat)
    requires Schedule(capacity, st, act) && n <= m
    requires Past(st(n), i)
    ensures Past(st(m), i) && Rank(st(m), i) <= Rank(st(n), i)
    decreases m - n
  {
    if n < m {
      ScheduleKeepsInv(capacity, st, act, n);
      assert StepAt(st, act, n);
      RankFalls(st(n), act(n), i);
      RankAlong(capacity, st, act, i, n + 1, m);
    }
  }

  // ==== Leaving Loading ====

  lemma PendingIsBlocked(capacity: nat, st: nat -> System, act: nat -> Action, i: nat, n: nat) returns (j: nat)
    requires capacity > 0 && Schedule(capacity, st, act)
    requires Past(st(n), i) && !TaskOver(st(n), i)
    ensures Blocks(st(n), i, j)
  {
    ScheduleKeepsInv(capacity, st, act, n);
    j := SomeoneBlocks(st(n), i);
  }

  lemma HelpLowers(capacity: nat, st: nat -> System, act: nat -> Action, i: nat, n: nat)
    requires Schedule(capacity, st, act) && Helps(st(n), i, act(n)) && Past(st(n), i)
    ensures Past(st(n + 1), i) && Rank(st(n + 1), i) < Rank(st(n), i)
  {
    ScheduleKeepsInv(capacity, st, act, n);
    assert StepAt(st, act, n);
    RankFalls(st(n), act(n), i);
  }

  /** Past Spawned for good, a session whose task is not over sooner or later has a lower
      rank. */
  lemma RankDrops(capacity: nat, st: nat -> System, act: nat -> Action, i: nat, n: nat) returns (m: nat)
    requires capacity > 0 && Schedule(capacity, st, act) && WeaklyFair(st, act)
    requires Past(st(n), i) && !TaskOver(st(n), i)
    ensures n <= m && Past(st(m), i) && Rank(st(m), i) < Rank(st(n), i)
  {
    var j := PendingIsBlocked(capacity, st, act, i, n);
    assert NotStarvedFrom(st, act, j, n);
    var end: nat :| n <= end && NotStarved(st, act, j, end);
    var h := FindHelp(capacity, st, act, i, j, n, end);
    RankAlong(capacity, st, act, i, n, h);
    HelpLowers(capacity, st, act, i, h);
    m := h + 1;
  }

  lemma {:induction false} EnqueuedTaskEnds(
      capacity: nat, st: nat -> System, act: nat -> Action, i: nat, n: nat) returns (m: nat)
    requires capacity > 0 && Schedule(capacity, st, act) && WeaklyFair(st, act)
    requires Past(st(n), i)
    ensures n <= m && TaskOver(st(m), i)
    decreases Rank(st(n), i)
  {
    if TaskOver(st(n), i) {
      m := n;
    } else {
      var lower := RankDrops(capacity, st, act, i, n);
      m := EnqueuedTaskEnds(capacity, st, act, i, lower);
    }
  }

  /** A step of a spawned session's task is its Enqueue, which is enabled until taken. */
  lemma SpawnedStep(s: System, a: Action, i: nat)
    requires Inv(s) && Enabled(s, a) && i < |s.sessions| && s.sessions[i].task.Spawned?
    ensures CanMove(s, i) && i < |Do(s, a).sessions|
    ensures Do(s, a).sessions[i].task.Spawned? <==> !Moves(a, i)
  {
    assert SessionInv(s.sessions[i]);
    assert Enabled(s, Enqueue(i)) && Moves(Enqueue(i), i);
    if !Moves(a, i) {
      MoverOnlyMovesItself(s, a, i);
    }
  }

  lemma {:induction false} SpawnedSessionMoves(
      capacity: nat, st: nat -> System, act: nat -> Action, i: nat, n: nat, end: nat) returns (m: nat)
    requires Schedule(capacity, st, act) && n <= end
    requires i < |st(n).sessions| && NotStarved(st, act, i, end)
    ensures n <= m && Past(st(m), i)
    decreases end - n
  {
    if Past(st(n), i) {
      m := n;
    } else {
      ScheduleKeepsInv(capacity, st, act, n);
      assert StepAt(st, act, n);
      SpawnedStep(st(n), act(n), i);
      if Moves(act(n), i) {
        m := n + 1;
      } else {
        assert n < end;
        m := SpawnedSessionMoves(capacity, st, act, i, n + 1, end);
      }
    }
  }

  lemma OverIsNotLoading(s: System, i: nat)
    requires Inv(s) && TaskOver(s, i)
    ensures !s.sessions[i].data.Loading?
  {
    assert SessionInv(s.sessions[i]);
  }

  lemma StepKeepsOver(s: System, a: Action, i: nat)
    requires Enabled(s, a) && TaskOver(s, i)
    ensures TaskOver(Do(s, a), i)
  {
  }

  lemma {:induction false} TaskStaysOver(
      capacity: nat, st: nat -> System, act: nat -> Action, i: nat, n: nat, m: nat)
    requires Schedule(capacity, st, act) && TaskOver(st(n), i) && n <= m
    ensures TaskOver(st(m), i) && !st(m).sessions[i].data.Loading?
    decreases m - n
  {
    if n == m {
      ScheduleKeepsInv(capacity, st, act, n);
      OverIsNotLoading(st(n), i);
    } else {
      assert StepAt(st, act, n);
      StepKeepsOver(st(n), act(n), i);
      TaskStaysOver(capacity, st, act, i, n + 1, m);
    }
  }

  /** With at least one permit, in every weakly fair schedule every session, whenever it
      was created and whatever else goes on, sooner or later is no longer Loading and
      holds no permit, and stays so. */
  lemma EverySessionLeavesLoading(capacity: nat, st: nat -> System, act: nat -> Action, i: nat, n: nat)
    returns (m: nat)
    requires capacity > 0 && Schedule(capacity, st, act) && WeaklyFair(st, act)
    requires i < |st(n).sessions|
    ensures n <= m
    ensures forall x: nat :: m <= x ==> TaskOver(st(x), i) && !st(x).sessions[i].data.Loading?
  {
    assert NotStarvedFrom(st, act, i, n);
    var end: nat :| n <= end && NotStarved(st, act, i, end);
    var queued := SpawnedSessionMoves(capacity, st, act, i, n, end);
    m := EnqueuedTaskEnds(capacity, st, act, i, queued);
    forall x: nat | m <= x
      ensures TaskOver(st(x), i) && !st(x).sessions[i].data.Loading?
    {
      TaskStaysOver(capacity, st, act, i, m, x);
    }
  }

  // ==== Fair schedules exist ====

  /** Nobody's task or thread has a step to take. */
  ghost predicate Quiet(s: System) {
    forall j: nat :: !CanMove(s, j)
  }

  function TotalWork(sessions: seq<Sess>): nat {
    if sessions == [] then 0 else TotalWork(sessions[..|sessions| - 1]) + Work(sessions[|sessions| - 1])
  }

  lemma {:induction false} TotalWorkFalls(sessions: seq<Sess>, i: nat, s: Sess)
    requires i < |sessions| && Work(s) < Work(sessions[i])
    ensures TotalWork(sessions[i := s]) < TotalWork(sessions)
    decreases |sessions|
  {
    var n := |sessions| - 1;
    if i == n {
      assert sessions[i := s][..n] == sessions[..n];
    } else {
      assert sessions[i := s][..n] == sessions[..n][i := s];
      TotalWorkFalls(sessions[..n], i, s);
    }
  }

  lemma ProgressLowersWork(s: System, a: Action)
    requires Inv(s) && Progress(a) && Enabled(s, a)
    ensures Inv(Do(s, a)) && |Do(s, a).sessions| == |s.sessions|
    ensures TotalWork(Do(s, a).sessions) < TotalWork(s.sessions)
  {
    StepKeepsInv(s, a);
    LocalWork(s.sessions[a.i], a);
    TotalWorkFalls(s.sessions, a.i, Local(s.sessions[a.i], a));
  }

  /** Left to themselves the tasks and threads run out of steps. */
  lemma {:induction false} Drain(s: System, run: seq<Action>) returns (drained: seq<Action>)
    requires Executable(s, run) && Inv(Exec(s, run))
    ensures run <= drained && Executable(s, drained) && Quiet(Exec(s, drained))
    ensures |Exec(s, drained).sessions| == |Exec(s, run).sessions|
    decreases TotalWork(Exec(s, run).sessions)
  {
    if j: nat :| CanMove(Exec(s, run), j) {
      var a: Action :| Progress(a) && a.i == j && Enabled(Exec(s, run), a);
      ProgressLowersWork(Exec(s, run), a);
      ExecThen(s, run, a);
      drained := Drain(s, run + [a]);
    } else {
      drained := run;
    }
  }

  /** The state after the first `n` actions of `run`, or after all of them. */
  function StateOf(s: System, run: seq<Action>, n: nat): System
    decreases |run|
  {
    if n == 0 || run == [] || !Enabled(s, run[0]) then s else StateOf(Do(s, run[0]), run[1..], n - 1)
  }

  function ActionOf(run: seq<Action>, n: nat): Action {
    if n < |run| then run[n] else Navigate(0, Poll)
  }

  lemma {:induction false} StateOfStep(s: System, run: seq<Action>, n: nat)
    requires Executable(s, run)
    ensures n >= |run| ==> StateOf(s, run, n) == Exec(s, run)
    ensures n < |run| ==>
      Enabled(StateOf(s, run, n), run[n]) && StateOf(s, run, n + 1) == Do(StateOf(s, run, n), run[n])
    decreases |run|
  {
    if run != [] && n > 0 {
      StateOfStep(Do(s, run[0]), run[1..], n - 1);
    }
  }

  lemma PollChangesNothing(s: System)
    requires s.sessions != []
    ensures Enabled(s, Navigate(0, Poll)) && Do(s, Navigate(0, Poll)) == s
  {
    assert s.sessions[0 := s.sessions[0]] == s.sessions;
  }

  function StatesOf(s: System, run: seq<Action>): nat -> System {
    (n: nat) => StateOf(s, run, n)
  }

  function ActionsOf(run: seq<Action>): nat -> Action {
    (n: nat) => ActionOf(run, n)
  }

  lemma PollingStep(s: System, run: seq<Action>, n: nat)
    requires Executable(s, run) && Exec(s, run).sessions != []
    ensures StepAt(StatesOf(s, run), ActionsOf(run), n)
  {
    StateOfStep(s, run, n);
    if n >= |run| {
      StateOfStep(s, run, n + 1);
      PollChangesNothing(Exec(s, run));
    }
  }

  lemma PollingIsScheduled(capacity: nat, run: seq<Action>)
    requires Executable(Init(capacity), run) && Exec(Init(capacity), run).sessions != []
    ensures Schedule(capacity, StatesOf(Init(capacity), run), ActionsOf(run))
  {
    forall n: nat
      ensures StepAt(StatesOf(Init(capacity), run), ActionsOf(run), n)
    {
      PollingStep(Init(capacity), run, n);
    }
  }

  lemma QuietPollingIsFair(s: System, run: seq<Action>)
    requires Executable(s, run) && Quiet(Exec(s, run))
    ensures WeaklyFair(StatesOf(s, run), ActionsOf(run))
  {
    forall j: nat, n: nat
      ensures NotStarvedFrom(StatesOf(s, run), ActionsOf(run), j, n)
    {
      StateOfStep(s, run, n + |run|);
      assert NotStarved(StatesOf(s, run), ActionsOf(run), j, n + |run|);
    }
  }

  /** A run that ends quiet goes on fairly with polls of its first session. */
  lemma PollForEver(capacity: nat, run: seq<Action>) returns (st: nat -> System, act: nat -> Action)
    requires Executable(Init(capacity), run)
    requires Quiet(Exec(Init(capacity), run)) && Exec(Init(capacity), run).sessions != []
    ensures Schedule(capacity, st, act) && WeaklyFair(st, act)
    ensures forall n: nat :: n < |run| ==> act(n) == run[n]
    ensures forall n: nat :: n >= |run| ==> st(n) == Exec(Init(capacity), run)
  {
    st, act := StatesOf(Init(capacity), run), ActionsOf(run);
    PollingIsScheduled(capacity, run);
    QuietPollingIsFair(Init(capacity), run);
    forall n: nat | n >= |run|
      ensures st(n) == Exec(Init(capacity), run)
    {
      StateOfStep(Init(capacity), run, n);
    }
  }

  /** Weak fairness rules out no beginning: every run of the protocol goes on to a weakly
      fair schedule. */
  lemma EveryRunExtendsFairly(capacity: nat, run: seq<Action>) returns (st: nat -> System, act: nat -> Action)
    requires Executable(Init(capacity), run)
    ensures Schedule(capacity, st, act) && WeaklyFair(st, act)
    ensures forall n: nat :: n < |run| ==> act(n) == run[n]
  {
    var s, begun := Init(capacity), run;
    if Exec(s, run).sessions == [] {
      var create := Create("", Replay(Frame(CreateInput("", ""), NotInterpreted), 0));
      ExecThen(s, run, create);
      begun := run + [create];
    }
    ReachableInv(capacity, begun);
    var drained := Drain(s, begun);
    st, act := PollForEver(capacity, drained);
  }

  // ==== Without permits ====

  /** The permit is needed: with none, some weakly fair schedule leaves its session
      Loading for ever. */
  lemma FairnessNeedsAPermit(path: string, replay: Replay) returns (st: nat -> System, act: nat -> Action)
    ensures Schedule(0, st, act) && WeaklyFair(st, act)
    ensures forall n: nat :: n >= 2 ==> |st(n).sessions| == 1 && st(n).sessions[0].data.Loading?
  {
    var s := Init(0);
    var run := [Create(path, replay)];
    ExecThen(s, [], Create(path, replay));
    ExecThen(s, run, Enqueue(0));
    run := run + [Enqueue(0)];
    st, act := PollForEver(0, run);
  }
}
