/** The terminal router: the interactive-terminal WebSocket loop and the
    decisions of its HTTP endpoints. The WebSocket is a finite sequence of
    inbound events; each event carries the outcome of the service call it
    triggers (the shell's reply to an input, whether a kill succeeds). */
module TerminalRoutes {
  import opened Wrappers
  import opened Terminal
  import opened CommandPolicy

  /** What the loop receives next. */
  datatype Inbound =
    | InputFrame(data: string, reply: ShellReply) // {"type": "input", "data": ...}
    | ResizeFrame                                 // {"type": "resize", ...}
    | KillFrame(killSucceeds: bool)               // {"type": "kill"}
    | OtherFrame(kind: string)                    // any other "type"
    | Disconnect(killSucceeds: bool)              // the client went away
    | Broken(message: string)                     // any other exception: bad JSON, a missing key, ...

  /** What the loop sends. */
  datatype Outbound =
    | ErrorFrame(message: string)
    | SessionCreated(sessionId: string, pid: int)
    | OutputFrame(data: string)
    | SessionKilled
    | Close

  /** The terminal-service calls the loop makes. */
  datatype ServiceCall = CreateCall(sessionId: string) | SendCall(sessionId: string, data: string) | KillCall(sessionId: string)

  /** The frames sent and the service calls made, in order. */
  datatype Transcript = Transcript(outs: seq<Outbound>, calls: seq<ServiceCall>)

  function Then(a: Transcript, b: Transcript): Transcript {
    Transcript(a.outs + b.outs, a.calls + b.calls)
  }

  /** The events after which the loop is left. */
  predicate Ends(f: Inbound) {
    f.KillFrame? || f.Disconnect? || f.Broken?
  }

  /** What `send_to_session` returns for the live session, as an output frame when it is non-empty. */
  function OutputFor(reply: ShellReply): (outs: seq<Outbound>)
    ensures |outs| <= 1
    ensures outs != [] <==> reply.Replied? && reply.text != ""
    ensures outs != [] ==> outs[0] == OutputFrame(reply.text)
  {
    if reply.Replied? && reply.text != "" then [OutputFrame(reply.text)] else []
  }

  /** What one event sends and calls. */
  function FrameStep(sessionId: string, f: Inbound): Transcript {
    match f
    case InputFrame(data, reply) => Transcript(OutputFor(reply), [SendCall(sessionId, data)])
    case ResizeFrame => Transcript([], [])
    case OtherFrame(_) => Transcript([], [])
    case KillFrame(_) => Transcript([SessionKilled], [KillCall(sessionId)])
    case Disconnect(_) => Transcript([], [KillCall(sessionId)])
    case Broken(m) => Transcript([ErrorFrame(m), Close], [])
  }

  /** The loop over the events, up to and including the first one that ends it. */
  function Session(sessionId: string, frames: seq<Inbound>): Transcript
    decreases |frames|
  {
    if |frames| == 0 then Transcript([], [])
    else if Ends(frames[0]) then FrameStep(sessionId, frames[0])
    else Then(FrameStep(sessionId, frames[0]), Session(sessionId, frames[1..]))
  }

  /** Everything `terminal_websocket` does for one connection. */
  function Dialogue(sessionId: string, spawn: Spawn, frames: seq<Inbound>): Transcript {
    match spawn
    case SpawnError(m) => Transcript([ErrorFrame(m), Close], [CreateCall(sessionId)])
    case Spawned(pid) => Then(Transcript([SessionCreated(sessionId, pid)], [CreateCall(sessionId)]), Session(sessionId, frames))
  }

  /** The first event that ends the loop, if any. */
  function Ending(frames: seq<Inbound>): (e: Option<Inbound>)
    ensures e.Some? ==> Ends(e.value) && e.value in frames
    decreases |frames|
  {
    if |frames| == 0 then None
    else if Ends(frames[0]) then Some(frames[0])
    else Ending(frames[1..])
  }

  /** The registry after the connection: the new shell is stored, and removed
      again when the loop ended with a kill that succeeded. */
  function RegistryAfter(registry: map<string, Handle>, sessionId: string, spawn: Spawn, frames: seq<Inbound>): map<string, Handle> {
    if spawn.SpawnError? then registry
    else
      var e := Ending(frames);
      if e.Some? && (e.value.KillFrame? || e.value.Disconnect?) && e.value.killSucceeds
      then registry[sessionId := Handle(spawn.pid)] - {sessionId}
      else registry[sessionId := Handle(spawn.pid)]
  }

  /** Concatenating transcripts is associative. */
  lemma ThenAssoc(a: Transcript, b: Transcript, c: Transcript)
    ensures Then(Then(a, b), c) == Then(a, Then(b, c))
  {
    assert (a.outs + b.outs) + c.outs == a.outs + (b.outs + c.outs);
    assert (a.calls + b.calls) + c.calls == a.calls + (b.calls + c.calls);
  }

  /** One unfolding of the loop at position `i`. */
  lemma SessionAt(sessionId: string, frames: seq<Inbound>, i: int)
    requires 0 <= i < |frames|
    ensures Session(sessionId, frames[i..]) == if Ends(frames[i]) then FrameStep(sessionId, frames[i])
                                              else Then(FrameStep(sessionId, frames[i]), Session(sessionId, frames[i + 1..]))
    ensures !Ends(frames[i]) ==> Ending(frames[i..]) == Ending(frames[i + 1..])
    ensures Ends(frames[i]) ==> Ending(frames[i..]) == Some(frames[i])
  {
    assert frames[i..][1..] == frames[i + 1..];
  }

  /** `terminal_websocket`: create the shell, announce it, then relay events until one ends the loop. */
  method TerminalWebSocket(service: TerminalService, sessionId: string, spawn: Spawn, frames: seq<Inbound>)
    returns (t: Transcript)
    modifies service
    ensures t == Dialogue(sessionId, spawn, frames)
    ensures service.activeProcesses == RegistryAfter(old(service.activeProcesses), sessionId, spawn, frames)
    ensures service.ready == old(service.ready)
  {
    var created := service.CreateInteractiveSession(sessionId, spawn);
    if created.CreateFailed? {
      return Transcript([ErrorFrame(created.error), Close], [CreateCall(sessionId)]);
    }
    t := Transcript([SessionCreated(sessionId, created.pid)], [CreateCall(sessionId)]);
    assert frames[0..] == frames;
    var i := 0;
    while i < |frames|
      invariant 0 <= i <= |frames|
      invariant Then(t, Session(sessionId, frames[i..])) == Dialogue(sessionId, spawn, frames)
      invariant Ending(frames[i..]) == Ending(frames)
      invariant service.activeProcesses == old(service.activeProcesses)[sessionId := Handle(spawn.pid)]
      invariant service.ready == old(service.ready)
    {
      var f := frames[i];
      SessionAt(sessionId, frames, i);
      if f.KillFrame? {
        var _ := service.KillSession(sessionId, f.killSucceeds);
        return Then(t, Transcript([SessionKilled], [KillCall(sessionId)]));
      } else if f.Disconnect? {
        var _ := service.KillSession(sessionId, f.killSucceeds);
        return Then(t, Transcript([], [KillCall(sessionId)]));
      } else if f.Broken? {
        return Then(t, Transcript([ErrorFrame(f.message), Close], []));
      }
      var step := Transcript([], []);
      if f.InputFrame? {
        var out := service.SendToSession(sessionId, f.data, f.reply);
        var sent := if out.Some? && out.value != "" then [OutputFrame(out.value)] else [];
        step := Transcript(sent, [SendCall(sessionId, f.data)]);
      }
      assert step == FrameStep(sessionId, f);
      ThenAssoc(t, step, Session(sessionId, frames[i + 1..]));
      t := Then(t, step);
      i := i + 1;
    }
    assert frames[i..] == [];
  }

  /** One event makes at most one service call, for this session and never a
      create; it kills exactly on a kill frame or a disconnect and closes the
      socket exactly on an exception. */
  lemma FrameStepCalls(sessionId: string, f: Inbound)
    ensures var t := FrameStep(sessionId, f);
            && |t.calls| <= 1 && (forall c :: c in t.calls ==> !c.CreateCall? && c.sessionId == sessionId)
            && (KillCall(sessionId) in t.calls <==> f.KillFrame? || f.Disconnect?)
            && (Close in t.outs <==> f.Broken?)
  {
  }

  /** The loop makes at most one call per event, all for this session and none a create. */
  lemma {:induction false} SessionCalls(sessionId: string, frames: seq<Inbound>)
    ensures var t := Session(sessionId, frames);
            && |t.calls| <= |frames|
            && forall c :: c in t.calls ==> !c.CreateCall? && c.sessionId == sessionId
    decreases |frames|
  {
    if |frames| > 0 {
      FrameStepCalls(sessionId, frames[0]);
      if !Ends(frames[0]) {
        SessionCalls(sessionId, frames[1..]);
      }
    }
  }

  /** The shell is created by the first call and by no later one; a failed spawn makes no other call. */
  lemma DialogueCreatesOnce(sessionId: string, spawn: Spawn, frames: seq<Inbound>)
    ensures var t := Dialogue(sessionId, spawn, frames);
            && |t.outs| >= 1 && |t.calls| >= 1
            && t.calls[0] == CreateCall(sessionId) && CreateCall(sessionId) !in t.calls[1..]
            && (spawn.SpawnError? ==> t.calls == [CreateCall(sessionId)])
  {
    if spawn.Spawned? {
      SessionCalls(sessionId, frames);
      var t := Dialogue(sessionId, spawn, frames);
      assert t.calls[1..] == Session(sessionId, frames).calls;
    }
  }

  /** A failed spawn sends one error frame and closes; no event is read. */
  lemma CreateFailureEndsAtOnce(sessionId: string, message: string, frames: seq<Inbound>)
    ensures Dialogue(sessionId, SpawnError(message), frames) == Transcript([ErrorFrame(message), Close], [CreateCall(sessionId)])
  {
  }

  /** After a successful spawn the first frame announces the session and its pid. */
  lemma FirstFrameAnnouncesSession(sessionId: string, pid: int, frames: seq<Inbound>)
    ensures Dialogue(sessionId, Spawned(pid), frames).outs[0] == SessionCreated(sessionId, pid)
  {
  }

  /** Nothing after the event that ends the loop is ever looked at. */
  lemma {:induction false} NothingAfterEnd(sessionId: string, before: seq<Inbound>, last: Inbound, after: seq<Inbound>)
    requires Ends(last)
    ensures Session(sessionId, before + [last] + after) == Session(sessionId, before + [last])
    decreases |before|
  {
    if |before| > 0 {
      assert (before + [last] + after)[1..] == before[1..] + [last] + after;
      assert (before + [last])[1..] == before[1..] + [last];
      NothingAfterEnd(sessionId, before[1..], last, after);
    } else {
      assert before + [last] + after == [last] + after;
      assert before + [last] == [last];
    }
  }

  /** A resize frame, or one of an unrecognised type, has no effect at all. */
  lemma {:induction false} SilentFramesInvisible(sessionId: string, before: seq<Inbound>, f: Inbound, after: seq<Inbound>)
    requires f.ResizeFrame? || f.OtherFrame?
    requires forall k :: 0 <= k < |before| ==> !Ends(before[k])
    ensures Session(sessionId, before + [f] + after) == Session(sessionId, before + after)
    decreases |before|
  {
    if |before| > 0 {
      assert (before + [f] + after)[1..] == before[1..] + [f] + after;
      assert (before + after)[1..] == before[1..] + after;
      SilentFramesInvisible(sessionId, before[1..], f, after);
      assert (before + [f] + after)[0] == before[0] == (before + after)[0];
    } else {
      assert before + [f] + after == [f] + after;
      assert before + after == after;
      assert ([f] + after)[1..] == after;
    }
  }

  /** No output frame carries empty data. */
  lemma {:induction false} OutputsNonEmpty(sessionId: string, frames: seq<Inbound>)
    ensures forall o :: o in Session(sessionId, frames).outs && o.OutputFrame? ==> o.data != ""
    decreases |frames|
  {
    if |frames| > 0 && !Ends(frames[0]) {
      OutputsNonEmpty(sessionId, frames[1..]);
    }
  }

  /** `kill_session` is called exactly when the loop ends with a kill frame or a
      disconnect, and then as the last call; any other exception never kills. */
  lemma {:induction false} KillCallIffKillOrDisconnect(sessionId: string, frames: seq<Inbound>)
    ensures var calls := Session(sessionId, frames).calls;
            var e := Ending(frames);
            && (KillCall(sessionId) in calls <==> e.Some? && (e.value.KillFrame? || e.value.Disconnect?))
            && (KillCall(sessionId) in calls ==> calls[|calls| - 1] == KillCall(sessionId))
    decreases |frames|
  {
    if |frames| > 0 && !Ends(frames[0]) {
      KillCallIffKillOrDisconnect(sessionId, frames[1..]);
      var step := FrameStep(sessionId, frames[0]);
      assert KillCall(sessionId) !in step.calls;
    }
  }

  // ------------------------------------------------------------ HTTP endpoints

  /** An endpoint's answer: a body, or an `HTTPException` with its status and detail. */
  datatype HttpReply<T> = Ok(body: T) | HttpError(status: int, detail: string)

  /** The body of a successful DELETE. */
  datatype KillReply = KillReply(message: string, sessionId: string)

  /** `request.session_id or "default"` */
  function SessionOrDefault(sessionId: Option<string>): (sid: string)
    ensures sessionId.Some? && sessionId.value != "" ==> sid == sessionId.value
    ensures sessionId.None? || sessionId.value == "" ==> sid == "default"
  {
    if sessionId.None? || sessionId.value == "" then "default" else sessionId.value
  }

  /** POST /execute: the command runs under the request's session id, or "default". */
  method ExecuteEndpoint(service: TerminalService, command: string, sessionId: Option<string>, workingDir: Option<string>,
                         env: Option<map<string, string>>, timeout: Option<int>, stamp: string, host: Host)
    returns (r: ExecResult)
    modifies service
    ensures service.ready == old(service.ready)
    ensures ProcessKey(SessionOrDefault(sessionId), stamp) !in old(service.activeProcesses) ==>
              service.activeProcesses == old(service.activeProcesses)
    ensures !Permitted(command, service.settings) ==>
              && CommandVerdict(command, service.settings).Rejected?
              && r == FailedResult(CommandVerdict(command, service.settings).reason)
              && service.activeProcesses == old(service.activeProcesses)
    ensures Permitted(command, service.settings) ==>
              var t := EffectiveTimeout(timeout, service.settings.timeout);
              var run := host.run(ShellRequest(command, ResolveCwd(workingDir, host), MergeEnv(host.environ, env), t));
              && r == RunResult(run, t, service.settings.maxOutput)
              && service.activeProcesses == if run.SpawnFailed? then old(service.activeProcesses)
                                            else old(service.activeProcesses) - {ProcessKey(SessionOrDefault(sessionId), stamp)}
  {
    r := service.ExecuteCommand(command, SessionOrDefault(sessionId), workingDir, env, timeout, stamp, host);
  }

  /** POST /session/create: a missing or empty id takes `freshId`; a failed spawn is a 500. */
  method CreateEndpoint(service: TerminalService, sessionId: Option<string>, freshId: string, spawn: Spawn)
    returns (r: HttpReply<CreateResult>)
    modifies service
    ensures var sid := SessionOrFresh(sessionId, freshId);
            && (spawn.Spawned? ==> r == Ok(Created(sid, spawn.pid))
                                   && service.activeProcesses == old(service.activeProcesses)[sid := Handle(spawn.pid)])
            && (spawn.SpawnError? ==> r == HttpError(500, spawn.message)
                                      && service.activeProcesses == old(service.activeProcesses))
  {
    var sid := SessionOrFresh(sessionId, freshId);
    var result := service.CreateInteractiveSession(sid, spawn);
    if result.CreateFailed? {
      return HttpError(500, result.error);
    }
    r := Ok(result);
  }

  /** `if not session_id: session_id = str(uuid.uuid4())` */
  function SessionOrFresh(sessionId: Option<string>, freshId: string): (sid: string)
    ensures sessionId.Some? && sessionId.value != "" ==> sid == sessionId.value
    ensures sessionId.None? || sessionId.value == "" ==> sid == freshId
  {
    if sessionId.None? || sessionId.value == "" then freshId else sessionId.value
  }

  /** DELETE /session/{id}: 404 unless the kill removed the session. */
  method DeleteEndpoint(service: TerminalService, sessionId: string, killSucceeds: bool) returns (r: HttpReply<KillReply>)
    modifies service
    ensures r.Ok? <==> sessionId in old(service.activeProcesses) && killSucceeds
    ensures r.Ok? ==> r.body == KillReply("Session killed", sessionId)
                      && service.activeProcesses == old(service.activeProcesses) - {sessionId}
    ensures r.HttpError? ==> r == HttpError(404, "Session not found")
                             && service.activeProcesses == old(service.activeProcesses)
  {
    var killed := service.KillSession(sessionId, killSucceeds);
    if !killed {
      return HttpError(404, "Session not found");
    }
    r := Ok(KillReply("Session killed", sessionId));
  }
}
