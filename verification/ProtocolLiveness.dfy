/** A rank for each session that no step raises and that the steps the session waits for
    lower, with such a step always enabled while it is loading. */
module ProtocolLiveness {
  import opened Types
  import opened CallTree
  import opened Session
  import opened Protocol
  import opened ProtocolSafety

  // ==== Ranks ====

  function EvmWork(s: Sess): nat {
    match s.evm
    case NotStarted => Steps(s.replay.root) + 3
    case Running(steps, halted) =>
      if halted then 1 else if steps <= Steps(s.replay.root) then Steps(s.replay.root) - steps + 2 else 2
    case _ => 0
  }

  function TaskWork(s: Sess): nat {
    match s.task
    case Restored => 0
    case Spawned => 10
    case Queued => 9
    case Holding => 8
    case Started => 7
    case Waiting => 6
    case Received(_) => 5
    case Stored => 4
    case Read(_) => 3
    case Written => 2
    case Finished => 0
  }

  /** What is left for this session's task and thread to do. */
  function Work(s: Sess): nat {
    if s.task.Restored? then 0 else TaskWork(s) + EvmWork(s)
  }

  /** Session `j` is in the queue before session `i`. */
  predicate Ahead(queue: seq<nat>, j: nat, i: nat) {
    exists a, b :: 0 <= a < b < |queue| && queue[a] == j && queue[b] == i
  }

  /** Session `i` waits for session `j`: for itself, and while it is queued for every
      holder of a permit and everyone ahead of it. */
  predicate WaitsFor(s: System, i: nat, j: nat) {
    && i < |s.sessions| && j < |s.sessions|
    && (j == i || (s.sessions[i].task.Queued? && (HoldsPermit(s.sessions[j]) || Ahead(s.queue, j, i))))
  }

  function Term(s: System, i: nat, j: nat): nat
    requires j < |s.sessions|
  {
    if WaitsFor(s, i, j) then Work(s.sessions[j]) else 0
  }

  /** The work of the first `n` sessions that session `i` waits for. */
  function RankOf(s: System, i: nat, n: nat): nat
    requires n <= |s.sessions|
  {
    if n == 0 then 0 else RankOf(s, i, n - 1) + Term(s, i, n - 1)
  }

  function Rank(s: System, i: nat): nat {
    RankOf(s, i, |s.sessions|)
  }

  /** The steps of the background task and of the EVM thread, as against creations,
      commands and aborts. */
  predicate Progress(a: Action) {
    !(a.Create? || a.Navigate? || a.AbortFlag? || a.AbortData?)
  }

  predicate Helps(s: System, i: nat, a: Action) {
    Progress(a) && WaitsFor(s, i, a.i)
  }

  // ==== One step ====

  lemma LocalWork(s: Sess, a: Action)
    requires SessionInv(s) && LocalEnabled(s, a)
    ensures Work(Local(s, a)) <= Work(s)
    ensures Progress(a) ==> Work(Local(s, a)) < Work(s)
  {
  }

  lemma OnlyAcquireGrants(s: System, a: Action, j: nat)
    requires Enabled(s, a) && !a.Acquire? && j < |Do(s, a).sessions| && HoldsPermit(Do(s, a).sessions[j])
    ensures j < |s.sessions| && HoldsPermit(s.sessions[j])
  {
    if a.Create? {
      assert !HoldsPermit(NewSession(s.cache, a.path, a.replay));
    } else if a.i == j {
      assert HoldsPermit(Local(s.sessions[j], a)) ==> HoldsPermit(s.sessions[j]);
    }
  }

  lemma AcquireKeepsOrder(s: System, a: Action, i: nat, j: nat)
    requires QueueFits(s) && Enabled(s, a) && a.Acquire? && i in s.queue && i != j
    requires WaitsFor(Do(s, a), i, j) && Do(s, a).sessions[i].task.Queued?
    ensures WaitsFor(s, i, j)
  {
    var s' := Do(s, a);
    assert s.queue == [a.i] + s'.queue && i != a.i;
    var b :| 0 <= b < |s.queue| && s.queue[b] == i;
    if j == a.i {
      assert Ahead(s.queue, j, i);
    } else if Ahead(s'.queue, j, i) {
      var x, y :| 0 <= x < y < |s'.queue| && s'.queue[x] == j && s'.queue[y] == i;
      assert s.queue[x + 1] == j && s.queue[y + 1] == i;
    }
  }

  lemma EnqueueKeepsOrder(s: System, a: Action, i: nat, j: nat)
    requires QueueFits(s) && Enabled(s, a) && a.Enqueue? && i in s.queue && i != j
    requires WaitsFor(Do(s, a), i, j) && s.sessions[i].task.Queued?
    ensures WaitsFor(s, i, j)
  {
    var s' := Do(s, a);
    if HoldsPermit(s'.sessions[j]) {
      OnlyAcquireGrants(s, a, j);
    } else {
      var x, y :| 0 <= x < y < |s'.queue| && s'.queue[x] == j && s'.queue[y] == i;
      assert y < |s.queue|;
    }
  }

  lemma OtherStepsKeepOrder(s: System, a: Action, i: nat, j: nat)
    requires QueueFits(s) && Enabled(s, a) && !a.Acquire? && !a.Enqueue? && i in s.queue && i != j
    requires WaitsFor(Do(s, a), i, j) && s.sessions[i].task.Queued?
    ensures WaitsFor(s, i, j)
  {
    var s' := Do(s, a);
    assert s'.queue == s.queue;
    if HoldsPermit(s'.sessions[j]) {
      OnlyAcquireGrants(s, a, j);
    } else {
      assert j in s.queue;
    }
  }

  /** A session past Spawned comes to wait for nobody it did not wait for before. */
  lemma WaitsForFewer(s: System, a: Action, i: nat, j: nat)
    requires Inv(s) && Enabled(s, a) && i < |s.sessions| && !s.sessions[i].task.Spawned?
    requires WaitsFor(Do(s, a), i, j)
    ensures WaitsFor(s, i, j)
  {
    if j != i {
      assert Do(s, a).sessions[i].task.Queued? && s.sessions[i].task.Queued? && i in s.queue;
      if a.Acquire? {
        AcquireKeepsOrder(s, a, i, j);
      } else if a.Enqueue? {
        EnqueueKeepsOrder(s, a, i, j);
      } else {
        OtherStepsKeepOrder(s, a, i, j);
      }
    }
  }

  lemma TermFalls(s: System, a: Action, i: nat, j: nat)
    requires Inv(s) && Enabled(s, a) && i < |s.sessions| && !s.sessions[i].task.Spawned?
    requires j < |s.sessions|
    ensures Term(Do(s, a), i, j) <= Term(s, i, j)
    ensures Helps(s, i, a) && a.i == j ==> Term(Do(s, a), i, j) < Term(s, i, j)
  {
    if WaitsFor(Do(s, a), i, j) {
      WaitsForFewer(s, a, i, j);
    }
    if !a.Create? && a.i == j {
      LocalWork(s.sessions[j], a);
    }
  }

  predicate TermNotRaised(s: System, s': System, i: nat, j: nat) {
    j < |s.sessions| && j < |s'.sessions| && Term(s', i, j) <= Term(s, i, j)
  }

  predicate TermLowered(s: System, s': System, i: nat, j: nat) {
    j < |s.sessions| && j < |s'.sessions| && Term(s', i, j) < Term(s, i, j)
  }

  lemma {:induction false} RankOfNotRaised(s: System, s': System, i: nat, n: nat)
    requires n <= |s.sessions| && n <= |s'.sessions|
    requires forall j: nat :: j < n ==> TermNotRaised(s, s', i, j)
    ensures RankOf(s', i, n) <= RankOf(s, i, n)
  {
    if n > 0 {
      RankOfNotRaised(s, s', i, n - 1);
      assert TermNotRaised(s, s', i, n - 1);
    }
  }

  lemma {:induction false} RankOfLowered(s: System, s': System, i: nat, n: nat, k: nat)
    requires n <= |s.sessions| && n <= |s'.sessions|
    requires forall j: nat :: j < n ==> TermNotRaised(s, s', i, j)
    requires k < n && TermLowered(s, s', i, k)
    ensures RankOf(s', i, n) < RankOf(s, i, n)
  {
    assert TermNotRaised(s, s', i, n - 1);
    if k == n - 1 {
      RankOfNotRaised(s, s', i, n - 1);
    } else {
      RankOfLowered(s, s', i, n - 1, k);
    }
  }

  lemma StepLowersTerms(s: System, a: Action, i: nat)
    requires Inv(s) && Enabled(s, a) && i < |s.sessions| && !s.sessions[i].task.Spawned?
    ensures |s.sessions| <= |Do(s, a).sessions|
    ensures forall j: nat :: j < |s.sessions| ==> TermNotRaised(s, Do(s, a), i, j)
    ensures Helps(s, i, a) ==> TermLowered(s, Do(s, a), i, a.i)
  {
    forall j: nat | j < |s.sessions|
      ensures TermNotRaised(s, Do(s, a), i, j)
    {
      TermFalls(s, a, i, j);
    }
    if Helps(s, i, a) {
      TermFalls(s, a, i, a.i);
    }
  }

  lemma RankOfFalls(s: System, a: Action, i: nat)
    requires Inv(s) && Enabled(s, a) && i < |s.sessions| && !s.sessions[i].task.Spawned?
    ensures var n := |s.sessions|;
      && n <= |Do(s, a).sessions|
      && RankOf(Do(s, a), i, n) <= RankOf(s, i, n)
      && (Helps(s, i, a) ==> RankOf(Do(s, a), i, n) < RankOf(s, i, n))
  {
    StepLowersTerms(s, a, i);
    RankOfNotRaised(s, Do(s, a), i, |s.sessions|);
    if Helps(s, i, a) {
      RankOfLowered(s, Do(s, a), i, |s.sessions|, a.i);
    }
  }

  /** A session past Spawned does not wait for one created later. */
  lemma NewcomerAddsNothing(s: System, a: Action, i: nat)
    requires Inv(s) && a.Create? && i < |s.sessions| && !s.sessions[i].task.Spawned?
    ensures Rank(Do(s, a), i) == RankOf(Do(s, a), i, |s.sessions|)
  {
    var n, s' := |s.sessions|, Do(s, a);
    assert RankOf(s', i, n + 1) == RankOf(s', i, n) + Term(s', i, n);
    if WaitsFor(s', i, n) {
      WaitsForFewer(s, a, i, n);
    }
  }

  /** No step of anyone raises the rank of a session whose task is in the queue or past
      it, and every step it waits for lowers it. */
  lemma RankFalls(s: System, a: Action, i: nat)
    requires Inv(s) && Enabled(s, a) && i < |s.sessions| && !s.sessions[i].task.Spawned?
    ensures i < |Do(s, a).sessions| && !Do(s, a).sessions[i].task.Spawned?
    ensures Rank(Do(s, a), i) <= Rank(s, i)
    ensures Helps(s, i, a) ==> Rank(Do(s, a), i) < Rank(s, i)
  {
    RankOfFalls(s, a, i);
    if a.Create? {
      NewcomerAddsNothing(s, a, i);
    }
  }

  // ==== A step to wait for is always enabled ====

  /** The next step of a session whose task holds a permit. */
  function OwnStep(s: Sess, i: nat): Action
    requires SessionInv(s) && HoldsPermit(s)
  {
    match s.task
    case Holding => Start(i)
    case Started => TakeReceiver(i)
    case Waiting =>
      if s.channel.Some? || s.evm.Vanished? then Receive(i)
      else if s.evm.halted || s.evm.steps == Steps(s.replay.root) then EvmSend(i, Returned(Err("")))
      else EvmStep(i, false)
    case Received(_) => Store(i)
    case Stored => ReadForCache(i)
    case Read(_) => Save(i, true)
    case _ => Release(i)
  }

  lemma OwnStepEnabled(s: System, i: nat)
    requires Inv(s) && i < |s.sessions| && HoldsPermit(s.sessions[i])
    ensures var a := OwnStep(s.sessions[i], i);
      Enabled(s, a) && Progress(a) && a.i == i
  {
  }

  lemma {:induction false} SomeoneHolds(sessions: seq<Sess>) returns (j: nat)
    requires Count(sessions, HoldsPermit) > 0
    ensures j < |sessions| && HoldsPermit(sessions[j])
  {
    j := |sessions| - 1;
    if !HoldsPermit(sessions[j]) {
      j := SomeoneHolds(sessions[..j]);
    }
  }

  /** The session whose next step `i` waits for: `i` itself once its task is past the
      queue; while it is queued a holder of a permit, or the head of the queue when a
      permit is free. */
  predicate Blocks(s: System, i: nat, j: nat) {
    && i < |s.sessions| && j < |s.sessions|
    && (|| (j == i && HoldsPermit(s.sessions[i]))
        || (s.sessions[i].task.Queued? && HoldsPermit(s.sessions[j]))
        || (s.sessions[i].task.Queued? && s.free > 0 && s.queue != [] && s.queue[0] == j))
  }

  lemma SomeoneBlocks(s: System, i: nat) returns (j: nat)
    requires Inv(s) && s.capacity > 0 && i < |s.sessions|
    requires s.sessions[i].task.Queued? || HoldsPermit(s.sessions[i])
    ensures Blocks(s, i, j)
  {
    if HoldsPermit(s.sessions[i]) {
      j := i;
    } else if s.free > 0 {
      assert i in s.queue && s.queue[0] in s.queue;
      j := s.queue[0];
    } else {
      j := SomeoneHolds(s.sessions);
    }
  }

  lemma HeadIsAhead(s: System, i: nat)
    requires QueueFits(s) && i < |s.sessions| && s.sessions[i].task.Queued?
    ensures s.queue != [] && (s.queue[0] == i || Ahead(s.queue, s.queue[0], i))
  {
    assert i in s.queue;
    var b :| 0 <= b < |s.queue| && s.queue[b] == i;
    if b > 0 {
      assert Ahead(s.queue, s.queue[0], i);
    }
  }

  /** A blocking session is waited for, and can always take a step. */
  lemma BlockerCanMove(s: System, i: nat, j: nat) returns (a: Action)
    requires Inv(s) && Blocks(s, i, j)
    ensures Enabled(s, a) && Progress(a) && a.i == j && Helps(s, i, a)
  {
    if HoldsPermit(s.sessions[j]) {
      OwnStepEnabled(s, j);
      a := OwnStep(s.sessions[j], j);
    } else {
      HeadIsAhead(s, i);
      assert j in s.queue;
      a := Acquire(j);
    }
  }

  /** With at least one permit, while a session is loading some step it waits for can be
      taken. */
  lemma LoadingSessionHasHelp(s: System, i: nat) returns (a: Action)
    requires Inv(s) && s.capacity > 0
    requires i < |s.sessions| && s.sessions[i].data.Loading?
    ensures Enabled(s, a) && Helps(s, i, a)
  {
    assert SessionInv(s.sessions[i]);
    if s.sessions[i].task.Spawned? {
      a := Enqueue(i);
    } else {
      var j := SomeoneBlocks(s, i);
      a := BlockerCanMove(s, i, j);
    }
  }

  /** The one message of a vanished thread makes its session an error, unless an abort
      came first. */
  lemma VanishedThreadBecomesError(capacity: nat, run: seq<Action>, i: nat)
    requires Executable(Init(capacity), run) && Enabled(Exec(Init(capacity), run), Store(i))
    requires Exec(Init(capacity), run).sessions[i].evm.Vanished?
    ensures var s := Exec(Init(capacity), run);
      Do(s, Store(i)).sessions[i].data
      == if s.sessions[i].data.Aborted? then SessionData.Aborted else SessionData.Error("EVM thread disconnected")
  {
    ReachableInv(capacity, run);
  }

  // ==== Without permits ====

  predicate AllStuck(s: System) {
    && s.free == 0 && s.cache == map[]
    && forall j :: 0 <= j < |s.sessions| ==>
         (s.sessions[j].task.Spawned? || s.sessions[j].task.Queued?)
         && s.sessions[j].evm.NotStarted? && Untouched(s.sessions[j].data)
  }

  lemma {:induction false} StuckForEver(s: System, run: seq<Action>)
    requires AllStuck(s) && Executable(s, run)
    ensures AllStuck(Exec(s, run))
    decreases |run|
  {
    if run != [] {
      StuckForEver(Do(s, run[0]), run[1..]);
    }
  }

  /** The permit is needed: configured with none, no session ever leaves Loading except
      by an abort. */
  lemma NoPermitsNoProgress(run: seq<Action>, i: nat)
    requires Executable(Init(0), run) && i < |Exec(Init(0), run).sessions|
    ensures Exec(Init(0), run).sessions[i].data in {SessionData.Loading, SessionData.Aborted}
  {
    StuckForEver(Init(0), run);
  }
}
