/** A cache hit restores the execution that was asked for: the protocol's cache joined to
    the meaning of its file names. */
module CacheIdentity {
  import opened Types
  import opened Recording
  import opened Protocol
  import opened ProtocolSafety
  import opened TxHash
  import opened TracePath

  /** Requests for the same path are requests for the same execution. */
  ghost predicate PathsIdentify(run: seq<Action>) {
    forall a, b :: a in run && b in run && a.Create? && b.Create? && a.path == b.path ==> a.replay == b.replay
  }

  /** Every session and every cached file goes back to a request in `asked`, for its own
      path and execution. */
  predicate Requested(s: System, asked: seq<Action>) {
    && (forall j :: 0 <= j < |s.sessions| ==> Create(s.sessions[j].path, s.sessions[j].replay) in asked)
    && (forall p :: p in s.cache ==> Create(p, s.cache[p].replay) in asked)
  }

  /** A hit asks for a path that is cached, and gets a session for the execution that was
      asked for when the file was made. */
  lemma CreateKeepsRequested(s: System, a: Action, asked: seq<Action>)
    requires Requested(s, asked) && a.Create? && a in asked
    ensures Requested(Do(s, a), asked)
  {
    var session := NewSession(s.cache, a.path, a.replay);
    assert Create(session.path, session.replay) in asked by {
      assert a == Create(a.path, a.replay);
    }
  }

  lemma StepKeepsRequested(s: System, a: Action, asked: seq<Action>)
    requires Requested(s, asked) && Enabled(s, a) && !a.Create?
    ensures Requested(Do(s, a), asked)
  {
    var me := s.sessions[a.i];
    assert Local(me, a).path == me.path && Local(me, a).replay == me.replay;
    assert Create(me.path, me.replay) in asked;
  }

  lemma {:induction false} RunKeepsRequested(s: System, run: seq<Action>, asked: seq<Action>)
    requires Requested(s, asked) && Executable(s, run)
    requires forall a :: a in run && a.Create? ==> a in asked
    ensures Requested(Exec(s, run), asked)
    decreases |run|
  {
    if run != [] {
      if run[0].Create? {
        CreateKeepsRequested(s, run[0], asked);
      } else {
        StepKeepsRequested(s, run[0], asked);
      }
      RunKeepsRequested(Do(s, run[0]), run[1..], asked);
    }
  }

  /** When paths identify executions, a hit restores the requested execution: its first
      steps, and all of them exactly when the session that saved the file recorded the
      last step. With a result that is exactly when it was not aborted. */
  lemma WarmIsWhatWasAskedFor(capacity: nat, run: seq<Action>, path: string, replay: Replay)
    requires Executable(Init(capacity), run) && PathsIdentify(run + [Create(path, replay)])
    requires path in Exec(Init(capacity), run).cache
    ensures var s := Exec(Init(capacity), run);
      var warm := Do(s, Create(path, replay)).sessions[|s.sessions|];
      var whole := FullTrace(replay.root, replay.maxMemory);
      && s.cache[path].owner < |s.sessions|
      && var owner := s.sessions[s.cache[path].owner];
      && warm.path == owner.path == path && warm.replay == owner.replay == replay
      && warm.data.Ready? && warm.data.currentIndex == 0
      && warm.data.snapshots <= whole
      && owner.evm.Sent?
      && (warm.data.snapshots == whole <==> owner.evm.steps == |whole|)
      && (warm.data.result.Some? ==> (warm.data.snapshots == whole <==> !Halted(owner)))
  {
    var s := Exec(Init(capacity), run);
    var asked := run + [Create(path, replay)];
    RunKeepsRequested(Init(capacity), run, asked);
    assert Create(path, s.cache[path].replay) in asked && Create(path, replay) in asked;
    ReachableInv(capacity, run);
    assert EntryFits(s.sessions, path, s.cache[path]);
    CutTracesComeFromTheWindow(capacity, run, path);
    CollectedIsPrefix(replay, 0);
  }

  // ==== Requests by transaction hash ====

  /** `create_session` for this hash, chain and block, when `execution` says what the
      transaction of a chain and block executes. */
  ghost predicate AsksFor(
      a: Action, execution: Key -> Replay, txHash: string, chainId: Option<U64>, blockNumber: U64)
  {
    && Canonicalize(txHash).Ok?
    && var canonical := Canonicalize(txHash).value;
    && a == Create(TraceCachePath(canonical, chainId, blockNumber), execution(Key(chainId, blockNumber, canonical)))
  }

  ghost predicate Genuine(a: Action, execution: Key -> Replay) {
    exists txHash, chainId, blockNumber :: AsksFor(a, execution, txHash, chainId, blockNumber)
  }

  /** The path alone says which execution was asked for. */
  lemma GenuineReadsBack(a: Action, execution: Key -> Replay)
    requires Genuine(a, execution)
    ensures a.Create? && ReadPath(a.path).Some? && a.replay == execution(ReadPath(a.path).value)
  {
    var txHash, chainId, blockNumber :| AsksFor(a, execution, txHash, chainId, blockNumber);
    PathRoundTrip(txHash, chainId, blockNumber);
  }

  lemma GenuineRequestsIdentify(run: seq<Action>, execution: Key -> Replay)
    requires forall a :: a in run && a.Create? ==> Genuine(a, execution)
    ensures PathsIdentify(run)
  {
    forall a, b | a in run && b in run && a.Create? && b.Create? && a.path == b.path
      ensures a.replay == b.replay
    {
      GenuineReadsBack(a, execution);
      GenuineReadsBack(b, execution);
    }
  }

  /** In every schedule of requests for transactions, whatever their spellings, a hit on a
      path shows steps of the requested transaction in the requested chain and block, from
      the first on, and of no other. */
  lemma CacheHitIsTheRequestedTransaction(
      capacity: nat, run: seq<Action>, execution: Key -> Replay,
      txHash: string, chainId: Option<U64>, blockNumber: U64)
    requires Executable(Init(capacity), run)
    requires forall a :: a in run && a.Create? ==> Genuine(a, execution)
    requires Canonicalize(txHash).Ok?
    requires TraceCachePath(Canonicalize(txHash).value, chainId, blockNumber) in Exec(Init(capacity), run).cache
    ensures var s := Exec(Init(capacity), run);
      var canonical := Canonicalize(txHash).value;
      var replay := execution(Key(chainId, blockNumber, canonical));
      var warm := Do(s, Create(TraceCachePath(canonical, chainId, blockNumber), replay)).sessions[|s.sessions|];
      && warm.data.Ready? && warm.replay == replay
      && warm.data.snapshots <= FullTrace(replay.root, replay.maxMemory)
  {
    var canonical := Canonicalize(txHash).value;
    var path := TraceCachePath(canonical, chainId, blockNumber);
    var replay := execution(Key(chainId, blockNumber, canonical));
    var request := Create(path, replay);
    assert AsksFor(request, execution, txHash, chainId, blockNumber);
    GenuineRequestsIdentify(run + [request], execution);
    WarmIsWhatWasAskedFor(capacity, run, path, replay);
  }
}
