/** `SessionService::create_session` of `src/session_service.rs` and the background task
    it spawns, each run on its own; their interleavings are the Protocol module's. */
module SessionService {
  import opened Types
  import opened Session
  import opened TxHash
  import opened TracePath

  datatype TxInfo = TxInfo(chainId: Option<U64>, blockNumber: U64)

  datatype CreateSessionResponse = CreateSessionResponse(
    sessionId: string, state: SessionState, traceSteps: seq<TraceStep>)

  /** What the spawned task captures. */
  datatype Job = Job(session: DebugSession, path: string)

  /** The path of a request that passes every check, or the first error. */
  function RequestPath(
      txHash: string, rpcError: Option<string>, fetched: Result<TxInfo>, loadError: Option<string>): Result<string>
  {
    match Canonicalize(txHash)
    case Err(text) => Err(text)
    case Ok(canonical) =>
      if rpcError.Some? then Err(rpcError.value)
      else match fetched
           case Err(text) => Err(text)
           case Ok(info) =>
             if loadError.Some? then Err(loadError.value)
             else Ok(TraceCachePath(canonical, info.chainId, info.blockNumber))
  }

  class Service {
    var sessions: map<string, DebugSession>
    /** The trace cache directory: contents by path of the files that can be read. */
    var cache: map<string, TraceCacheFile>

    constructor ()
      ensures sessions == map[] && cache == map[]
    {
      sessions, cache := map[], map[];
    }

    /** `rpcError` is the verdict of the URL check, `fetched` the answer of the fetcher, and
        `loadError` is set when there is a file at the path that cannot be read or parsed. */
    method CreateSession(
        sessionId: string, txHash: string, rpcError: Option<string>, fetched: Result<TxInfo>, loadError: Option<string>)
      returns (response: Result<CreateSessionResponse>, job: Option<Job>)
      modifies this`sessions
      ensures var path := RequestPath(txHash, rpcError, fetched, loadError);
        match path
        case Err(text) => response == Err(text) && job == None && sessions == old(sessions)
        case Ok(p) =>
          && sessionId in sessions && fresh(sessions[sessionId])
          && sessions == old(sessions)[sessionId := sessions[sessionId]]
          && sessions[sessionId].Valid() && !sessions[sessionId].abortFlag
          && (p in cache ==>
                && sessions[sessionId].data == FromCache(cache[p]) && sessions[sessionId].snapRx == None
                && response == Ok(CreateSessionResponse(
                     sessionId, CurrentState(FromCache(cache[p])), TraceRows(FromCache(cache[p]))))
                && job == None)
          && (p !in cache ==>
                && sessions[sessionId].data == SessionData.Loading && sessions[sessionId].snapRx.Some?
                && fresh(sessions[sessionId].snapRx.value)
                && response == Ok(CreateSessionResponse(sessionId, SessionState.Loading, []))
                && job == Some(Job(sessions[sessionId], p)))
      ensures Canonicalize(txHash).Err? ==> response == Err("invalid tx hash")
      ensures Canonicalize(txHash).Ok? && rpcError.Some? ==> response == Err(rpcError.value)
      ensures Canonicalize(txHash).Ok? && rpcError.None? && fetched.Err? ==> response == Err(fetched.message)
      ensures Canonicalize(txHash).Ok? && rpcError.None? && fetched.Ok? && loadError.Some? ==>
        response == Err(loadError.value)
      ensures Canonicalize(txHash).Ok? && rpcError.None? && fetched.Ok? && loadError.None? ==>
        var key := Key(fetched.value.chainId, fetched.value.blockNumber, Canonicalize(txHash).value);
        && response.Ok? && response.value.sessionId == sessionId && sessionId in sessions
        && Tells(response.value.state, sessions[sessionId].data)
        && (job.Some? ==>
              && sessions[sessionId].data == SessionData.Loading && response.value.traceSteps == []
              && job.value.session == sessions[sessionId]
              && ReadPath(job.value.path) == Some(key) && job.value.path !in cache)
        && (job.None? ==>
              exists p :: p in cache && ReadPath(p) == Some(key)
                          && sessions[sessionId].data == SessionData.Ready(cache[p].snapshots, 0, cache[p].result))
    {
      var canonical := Canonicalize(txHash);
      CanonicalizeMeaning(txHash);
      if canonical.Err? {
        return Err(canonical.message), None;
      }
      if rpcError.Some? {
        return Err(rpcError.value), None;
      }
      if fetched.Err? {
        return Err(fetched.message), None;
      }
      var path := TraceCachePath(canonical.value, fetched.value.chainId, fetched.value.blockNumber);
      if loadError.Some? {
        return Err(loadError.value), None;
      }
      PathRoundTrip(txHash, fetched.value.chainId, fetched.value.blockNumber);
      if path in cache {
        var restored := new DebugSession.FromFile(cache[path]);
        sessions := sessions[sessionId := restored];
        var state := restored.GetCurrentState();
        var rows := restored.GetTraceSteps();
        return Ok(CreateSessionResponse(sessionId, state, rows)), None;
      }
      var channel := new Channel();
      var session := new DebugSession.New(channel);
      sessions := sessions[sessionId := session];
      return Ok(CreateSessionResponse(sessionId, SessionState.Loading, [])), Some(Job(session, path));
    }

    /** The blocking part of the task, run once the EVM thread has sent or is gone; a
        failing save is ignored. */
    method WaitAndSave(job: Job, saveWorks: bool)
      requires job.session.Valid() && job.session.snapRx.Some?
      requires job.session.snapRx.value.queue != [] || job.session.snapRx.value.senders == 0
      modifies this`cache, job.session, if job.session.snapRx.Some? then {job.session.snapRx.value} else {}
      ensures job.session.Valid()
      ensures var queue := old(if job.session.snapRx.Some? then job.session.snapRx.value.queue else []);
        job.session.data == StoreMessage(old(job.session.data), if queue != [] then queue[0] else DISCONNECTED)
      ensures var file := ForCache(job.session.data);
        cache == if file.Some? && saveWorks then old(cache)[job.path := file.value] else old(cache)
      ensures var data := job.session.data;
        cache == if data.Ready? && saveWorks then old(cache)[job.path := TraceCacheFile(data.snapshots, data.result)]
                 else old(cache)
    {
      var _ := job.session.WaitForSnapshots();
      var file := job.session.SnapshotsForCache();
      if file.Some? {
        if saveWorks {
          cache := cache[job.path := file.value];
        }
      }
    }
  }
}
