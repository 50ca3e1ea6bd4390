/** The application module: its service instances, the bookkeeping of open
    WebSocket connections per session, the routing of WebSocket messages, the
    broadcast to a session's connections, and start-up / shut-down. Connections
    are known by an integer identity. */
module App {
  import opened Wrappers
  import opened CommandPolicy
  import opened Terminal
  import opened Sessions
  import opened Models

  // ------------------------------------------------------- connection lists

  /** `list.remove(x)` on a list that holds `x`: the first occurrence goes. */
  function RemoveFirst(s: seq<int>, x: int): (r: seq<int>)
    ensures x in s ==> |r| == |s| - 1
    ensures x !in s ==> r == s
    ensures forall y :: y in r ==> y in s
  {
    if |s| == 0 then []
    else if s[0] == x then s[1..]
    else [s[0]] + RemoveFirst(s[1..], x)
  }

  /** Removing `x` where its first occurrence is at `i` splices out position `i`. */
  lemma {:induction false} RemoveFirstAt(s: seq<int>, x: int, i: int)
    requires 0 <= i < |s| && s[i] == x && x !in s[..i]
    ensures RemoveFirst(s, x) == s[..i] + s[i + 1..]
    decreases i
  {
    if i == 0 {
      assert s[..0] + s[1..] == s[1..];
    } else {
      assert s[0] in s[..i];
      var t := s[1..];
      assert RemoveFirst(s, x) == [s[0]] + RemoveFirst(t, x);
      assert t[..i - 1] == s[1..i];
      RemoveFirstAt(t, x, i - 1);
      assert t[i..] == s[i + 1..];
      assert [s[0]] + s[1..i] == s[..i];
    }
  }

  /** The element `list.remove` takes out is the first one equal to `x`, the others keeping their order. */
  lemma RemoveFirstOccurrence(s: seq<int>, x: int)
    requires x in s
    ensures exists i :: 0 <= i < |s| && s[i] == x && x !in s[..i] && RemoveFirst(s, x) == s[..i] + s[i + 1..]
  {
    var i := 0;
    while s[i] != x
      invariant 0 <= i < |s| && x !in s[..i] && x in s[i..]
      decreases |s| - i
    {
      assert s[i..] == [s[i]] + s[i + 1..];
      assert s[..i + 1] == s[..i] + [s[i]];
      i := i + 1;
    }
    RemoveFirstAt(s, x, i);
  }

  /** Removing the element just appended, when it occurs nowhere before, gives back the list. */
  lemma {:induction false} RemoveAppended(before: seq<int>, x: int)
    requires x !in before
    ensures RemoveFirst(before + [x], x) == before
    decreases |before|
  {
    if |before| > 0 {
      assert (before + [x])[1..] == before[1..] + [x];
      RemoveAppended(before[1..], x);
    }
  }

  /** The connections after `conn` is appended to `sessionId`'s list, which is created if absent. */
  function Registered(conns: map<string, seq<int>>, sessionId: string, conn: int): (r: map<string, seq<int>>)
    ensures sessionId in r && r[sessionId] == (if sessionId in conns then conns[sessionId] else []) + [conn]
    ensures forall k :: k != sessionId ==> (k in r <==> k in conns) && (k in r ==> r[k] == conns[k])
  {
    conns[sessionId := (if sessionId in conns then conns[sessionId] else []) + [conn]]
  }

  /** The connections after `conn` is removed from `sessionId`'s list, the key
      being deleted once its list is empty. None is the `KeyError` or
      `ValueError` of a session or a connection that is not registered. */
  function Unregistered(conns: map<string, seq<int>>, sessionId: string, conn: int): (r: Option<map<string, seq<int>>>)
    ensures r.None? <==> sessionId !in conns || conn !in conns[sessionId]
    ensures r.Some? ==> forall k :: k != sessionId ==> (k in r.value <==> k in conns) && (k in r.value ==> r.value[k] == conns[k])
    ensures r.Some? ==> (sessionId in r.value <==> |conns[sessionId]| > 1)
    ensures r.Some? && sessionId in r.value ==> r.value[sessionId] == RemoveFirst(conns[sessionId], conn)
  {
    if sessionId !in conns || conn !in conns[sessionId] then None
    else
      var rest := RemoveFirst(conns[sessionId], conn);
      Some(if rest == [] then conns - {sessionId} else conns[sessionId := rest])
  }

  /** Disconnecting a connection undoes its registration, unless the session
      was left holding an empty list, which the disconnect then deletes. */
  lemma RegisterThenUnregister(conns: map<string, seq<int>>, sessionId: string, conn: int)
    requires sessionId !in conns || conn !in conns[sessionId]
    ensures sessionId !in conns || conns[sessionId] != [] ==> Unregistered(Registered(conns, sessionId, conn), sessionId, conn) == Some(conns)
    ensures sessionId in conns && conns[sessionId] == [] ==>
              Unregistered(Registered(conns, sessionId, conn), sessionId, conn) == Some(conns - {sessionId})
  {
    var before := if sessionId in conns then conns[sessionId] else [];
    RemoveAppended(before, conn);
    var registered := Registered(conns, sessionId, conn);
    if sessionId !in conns {
      assert registered - {sessionId} == conns;
    } else if before == [] {
      assert registered - {sessionId} == conns - {sessionId};
    } else {
      assert registered[sessionId := before] == conns;
    }
  }

  // ----------------------------------------------------------- broadcasting

  /** The connections sent to and the list left behind by a broadcast. */
  datatype Delivery = Delivery(sent: seq<int>, remaining: seq<int>)

  /** `broadcast_to_session` as written: the `for` loop walks the list by
      position while failed connections are removed from that same list, so
      the element after a removed one moves into the slot already passed. */
  function BroadcastFrom(conns: seq<int>, i: nat, alive: int -> bool): (d: Delivery)
    ensures forall c :: c in d.sent ==> c in conns && alive(c)
    decreases |conns| - i
  {
    if i >= |conns| then Delivery([], conns)
    else
      var c := conns[i];
      if alive(c) then
        var rest := BroadcastFrom(conns, i + 1, alive);
        Delivery([c] + rest.sent, rest.remaining)
      else
        var rest := BroadcastFrom(RemoveFirst(conns, c), i + 1, alive);
        rest
  }

  /** The defect: with connections [1, 2] where only 1 fails, 2 is never sent the message. */
  lemma BroadcastSkipsSuccessor()
    ensures var alive := (c: int) => c != 1;
            var d := BroadcastFrom([1, 2], 0, alive);
            alive(2) && 2 !in d.sent && d.remaining == [2]
  {
    var alive := (c: int) => c != 1;
    assert RemoveFirst([1, 2], 1) == [2];
    assert BroadcastFrom([2], 1, alive) == Delivery([], [2]);
  }

  /** When no send fails, the broadcast as written does reach everyone and removes nothing. */
  lemma {:induction false} BroadcastAllAlive(conns: seq<int>, i: nat, alive: int -> bool)
    requires i <= |conns|
    requires forall c :: c in conns ==> alive(c)
    ensures BroadcastFrom(conns, i, alive) == Delivery(conns[i..], conns)
    decreases |conns| - i
  {
    if i < |conns| {
      BroadcastAllAlive(conns, i + 1, alive);
      assert conns[i..] == [conns[i]] + conns[i + 1..];
    }
  }

  /** The connections whose send succeeds, in order. */
  function Live(conns: seq<int>, alive: int -> bool): (r: seq<int>)
    ensures |r| <= |conns|
    ensures forall c :: c in r <==> c in conns && alive(c)
  {
    if |conns| == 0 then []
    else
      assert conns == [conns[0]] + conns[1..];
      (if alive(conns[0]) then [conns[0]] else []) + Live(conns[1..], alive)
  }

  lemma {:induction false} LiveStep(conns: seq<int>, c: int, alive: int -> bool)
    ensures Live(conns + [c], alive) == Live(conns, alive) + (if alive(c) then [c] else [])
    decreases |conns|
  {
    var last := if alive(c) then [c] else [];
    if |conns| == 0 {
      assert [c][1..] == [];
      assert Live([c], alive) == last + Live([], alive);
    } else {
      var head := if alive(conns[0]) then [conns[0]] else [];
      assert (conns + [c])[0] == conns[0];
      assert (conns + [c])[1..] == conns[1..] + [c];
      assert Live(conns + [c], alive) == head + Live(conns[1..] + [c], alive);
      LiveStep(conns[1..], c, alive);
      assert Live(conns, alive) == head + Live(conns[1..], alive);
      assert head + (Live(conns[1..], alive) + last) == (head + Live(conns[1..], alive)) + last;
    }
  }

  // ------------------------------------------------------------- messages

  /** The keys of an incoming WebSocket message the router reads; None is an absent key. */
  datatype Incoming = Incoming(kind: Option<string>, content: Option<string>, command: Option<string>,
                               workingDir: Option<string>, code: Option<string>, position: Option<Position>,
                               operation: Option<string>, path: Option<string>)

  /** The dictionary `handle_websocket_message` returns; `NoReply` is its `None`. */
  datatype Reply =
    | ChatResponse(content: string)
    | TerminalOutput(output: ExecResult)
    | CodeSuggestions(suggestions: seq<string>)
    | FileContent(path: Option<string>, content: string)
    | FileSaved(path: Option<string>)
    | ErrorReply(message: string)
    | NoReply

  /** Reading and writing files: the text read, or the error raised; a write's error, if any. */
  datatype Files = Files(read: Option<string> -> Result<string, string>, write: (Option<string>, Option<string>) -> Option<string>)

  const ChatTokens: int := 512
  const CompletionCount: int := 3
  /** What `pattern in command` raises when the command is None. */
  const NoneNotIterable: string := "argument of type 'NoneType' is not iterable"

  /** `str(msg_type)` for a type that is a string or absent. */
  function TypeName(kind: Option<string>): string {
    if kind.None? then "None" else kind.value
  }

  function UnknownType(kind: Option<string>): string {
    "Unknown message type: " + TypeName(kind)
  }

  /** The session's context as chat messages. */
  function ChatContext(ctx: seq<Sessions.Message>): (r: seq<ChatMessage>)
    ensures |r| == |ctx|
    ensures forall i :: 0 <= i < |ctx| ==> r[i] == ChatMessage(ctx[i].role, ctx[i].content)
  {
    seq(|ctx|, i requires 0 <= i < |ctx| => ChatMessage(ctx[i].role, ctx[i].content))
  }

  /** The request handed to the shell for a `terminal` message. */
  function TerminalRequest(command: string, workingDir: Option<string>, host: Host, settings: Settings): ShellRequest {
    ShellRequest(command, ResolveCwd(Some(workingDir.GetOr(host.cwd)), host), host.environ, EffectiveTimeout(None, settings.timeout))
  }

  predicate KnownKind(kind: Option<string>) {
    kind == Some("chat") || kind == Some("terminal") || kind == Some("code_complete") || kind == Some("file_operation")
  }

  class App {
    const model: ModelService
    const terminal: TerminalService
    const sessions: SessionManager
    /** The terminal router's own instance, distinct from `terminal`. */
    const routerTerminal: TerminalService
    var activeConnections: map<string, seq<int>>

    predicate Valid()
      reads this
    {
      && terminal != routerTerminal
      && terminal.settings == DefaultSettings() && routerTerminal.settings == DefaultSettings()
    }

    constructor ()
      ensures Valid() && activeConnections == map[]
      ensures !model.ready && !terminal.ready && !routerTerminal.ready
      ensures terminal.activeProcesses == map[] && routerTerminal.activeProcesses == map[] && sessions.sessions == map[]
    {
      model := new ModelService();
      terminal := new TerminalService(DefaultSettings());
      sessions := new SessionManager();
      routerTerminal := new TerminalService(DefaultSettings());
      activeConnections := map[];
    }

    /** The start-up hook: the model is loaded, then the terminal service is
        initialised; a load failure propagates and leaves the terminal not ready. */
    method Startup(outcome: LoadOutcome) returns (error: Option<string>)
      requires Valid()
      modifies model, terminal
      ensures error.None? <==> outcome == LoadOk
      ensures outcome == LoadOk ==> model.ready && terminal.ready
      ensures outcome != LoadOk ==> terminal.ready == old(terminal.ready)
      ensures terminal.activeProcesses == old(terminal.activeProcesses)
      ensures routerTerminal.ready == old(routerTerminal.ready)
    {
      error := model.Initialize(outcome);
      if error.Some? {
        return;
      }
      terminal.Initialize();
    }

    /** The shut-down hook: model, terminal service and sessions are cleaned up
        in that order; an exception stops it. The router's terminal instance is
        never cleaned up. */
    method Shutdown() returns (ok: bool)
      requires Valid()
      modifies model, terminal, sessions
      ensures routerTerminal.activeProcesses == old(routerTerminal.activeProcesses)
      ensures ok <==> old(model.model) != Deleted && old(model.tokenizer) != Deleted
      ensures ok ==> terminal.activeProcesses == map[] && !terminal.ready && sessions.sessions == map[] && !model.ready
      ensures !ok ==> terminal.activeProcesses == old(terminal.activeProcesses) && sessions.sessions == old(sessions.sessions)
    {
      ok := model.Cleanup();
      if !ok {
        return;
      }
      var _ := terminal.Cleanup();
      sessions.Cleanup();
    }

    /** The `/health` report's service flags. */
    function Health(): (h: (bool, bool, nat))
      reads this, model, terminal, sessions
      ensures h.0 == model.ready && h.1 == terminal.ready && h.2 == |sessions.sessions|
    {
      (model.IsReady(), terminal.IsReady(), sessions.ActiveSessionsCount())
    }

    /** Connecting: the connection is appended to its session's list, and the
        session is fetched or created. */
    method Connect(sessionId: string, conn: int, freshId: string, now: int)
      modifies this, sessions
      ensures activeConnections == Registered(old(activeConnections), sessionId, conn)
      ensures var id := if sessionId == "" then freshId else sessionId;
              && id in sessions.sessions
              && (id in old(sessions.sessions) ==>
                    sessions.sessions == old(sessions.sessions)[id := old(sessions.sessions)[id].(lastActivity := now)])
              && (id !in old(sessions.sessions) ==> sessions.sessions == old(sessions.sessions)[id := NewSession(id, now)])
    {
      activeConnections := Registered(activeConnections, sessionId, conn);
      var _ := sessions.GetOrCreateSession(Some(sessionId), freshId, now);
    }

    /** The end of a connection. On a disconnect the connection is removed
        (`ok` is false when it is no longer registered, which raises); on any
        other exception the socket is closed and stays registered. */
    method Disconnected(sessionId: string, conn: int, byClient: bool) returns (ok: bool)
      modifies this
      ensures !byClient ==> ok && activeConnections == old(activeConnections)
      ensures byClient ==> var r := Unregistered(old(activeConnections), sessionId, conn);
                           && (ok <==> r.Some?)
                           && activeConnections == (if r.Some? then r.value else old(activeConnections))
    {
      if !byClient {
        return true;
      }
      var r := Unregistered(activeConnections, sessionId, conn);
      if r.None? {
        return false;
      }
      activeConnections := r.value;
      ok := true;
    }

    /** `handle_websocket_message`: route on the message type. */
    method HandleWebSocketMessage(msg: Incoming, sessionId: string, session: Session, sampler: Sampler,
                                  stamp: string, host: Host, files: Files) returns (reply: Reply)
      modifies terminal
      ensures terminal.ready == old(terminal.ready)
      ensures msg.kind != Some("terminal") || msg.command.None? ==> terminal.activeProcesses == old(terminal.activeProcesses)
      ensures ProcessKey(sessionId, stamp) !in old(terminal.activeProcesses) ==> terminal.activeProcesses == old(terminal.activeProcesses)
      ensures !KnownKind(msg.kind) ==> reply == ErrorReply(UnknownType(msg.kind))
      ensures msg.kind == Some("chat") ==>
                var out := sampler(ChatRequest(msg.content.GetOr(""), ChatContext(session.context), true, ChatTokens, 0));
                reply == if !model.ready then ErrorReply(NotInitialized)
                         else if out.Failure? then ErrorReply(out.error) else ChatResponse("")
      ensures msg.kind == Some("terminal") && msg.command.None? ==> reply == ErrorReply(NoneNotIterable)
      ensures msg.kind == Some("terminal") && msg.command.Some? ==>
                && reply.TerminalOutput?
                && (Permitted(msg.command.value, terminal.settings) ==>
                      reply.output == RunResult(host.run(TerminalRequest(msg.command.value, msg.workingDir, host, terminal.settings)),
                                                terminal.settings.timeout, terminal.settings.maxOutput))
                && (!Permitted(msg.command.value, terminal.settings) ==>
                      && CommandVerdict(msg.command.value, terminal.settings).Rejected?
                      && reply.output.exitCode == -1 && !reply.output.success
                      && reply.output.error == Some(CommandVerdict(msg.command.value, terminal.settings).reason))
      ensures msg.kind == Some("code_complete") ==>
                && (!model.ready ==> reply == ErrorReply(NotInitialized))
                && (model.ready && (msg.code.None? || msg.position.None?) ==> reply == CodeSuggestions([]))
                && (model.ready ==> reply.CodeSuggestions? && |reply.suggestions| <= CompletionCount)
                && (model.ready && msg.code.Some? && msg.position.Some? ==>
                      reply == CodeSuggestions(Completions(msg.code.value, msg.position.value, CompletionCount, sampler)))
      ensures msg.kind == Some("file_operation") ==>
                && (msg.operation == Some("read") ==>
                      reply == (var r := files.read(msg.path); if r.Success? then FileContent(msg.path, r.value) else ErrorReply(r.error)))
                && (msg.operation == Some("write") ==>
                      reply == (var e := files.write(msg.path, msg.content); if e.None? then FileSaved(msg.path) else ErrorReply(e.value)))
                && (msg.operation != Some("read") && msg.operation != Some("write") ==> reply == NoReply)
    {
      if msg.kind == Some("chat") {
        var response := model.GenerateResponse(msg.content.GetOr(""), ChatContext(session.context), true, ChatTokens, sampler, 0);
        if response.Failure? {
          return ErrorReply(response.error);
        }
        return ChatResponse(response.value);
      } else if msg.kind == Some("terminal") {
        if msg.command.None? {
          return ErrorReply(NoneNotIterable);
        }
        var result := terminal.ExecuteCommand(msg.command.value, sessionId, Some(msg.workingDir.GetOr(host.cwd)), None, None, stamp, host);
        return TerminalOutput(result);
      } else if msg.kind == Some("code_complete") {
        if !model.ready {
          return ErrorReply(NotInitialized);
        }
        if msg.code.None? || msg.position.None? {
          // `None.split` or `None.get` raises inside the completion's own `try`
          return CodeSuggestions([]);
        }
        var suggestions := model.GetCodeCompletions(msg.code.value, msg.position.value, CompletionCount, sampler);
        return CodeSuggestions(suggestions.value);
      } else if msg.kind == Some("file_operation") {
        if msg.operation == Some("read") {
          var r := files.read(msg.path);
          if r.Failure? {
            return ErrorReply(r.error);
          }
          return FileContent(msg.path, r.value);
        } else if msg.operation == Some("write") {
          var e := files.write(msg.path, msg.content);
          if e.Some? {
            return ErrorReply(e.value);
          }
          return FileSaved(msg.path);
        }
        return NoReply;
      }
      reply := ErrorReply(UnknownType(msg.kind));
    }

    /** `broadcast_to_session` exactly as written; `alive` says whose send succeeds. */
    method BroadcastAsWritten(sessionId: string, alive: int -> bool) returns (sent: seq<int>)
      modifies this
      ensures sessionId !in old(activeConnections) ==> sent == [] && activeConnections == old(activeConnections)
      ensures sessionId in old(activeConnections) ==>
                var d := BroadcastFrom(old(activeConnections)[sessionId], 0, alive);
                sent == d.sent && activeConnections == old(activeConnections)[sessionId := d.remaining]
    {
      sent := [];
      if sessionId !in activeConnections {
        return;
      }
      var conns := activeConnections[sessionId];
      ghost var whole := BroadcastFrom(conns, 0, alive);
      var i := 0;
      while i < |conns|
        invariant sessionId in activeConnections && activeConnections == old(activeConnections)[sessionId := conns]
        invariant sent + BroadcastFrom(conns, i, alive).sent == whole.sent
        invariant BroadcastFrom(conns, i, alive).remaining == whole.remaining
        decreases |conns| - i
      {
        var c := conns[i];
        ghost var here := BroadcastFrom(conns, i, alive);
        if alive(c) {
          ghost var next := BroadcastFrom(conns, i + 1, alive);
          assert here == Delivery([c] + next.sent, next.remaining);
          assert (sent + [c]) + next.sent == sent + ([c] + next.sent);
          sent := sent + [c];
        } else {
          assert here == BroadcastFrom(RemoveFirst(conns, c), i + 1, alive);
          conns := RemoveFirst(conns, c);
          activeConnections := activeConnections[sessionId := conns];
        }
        i := i + 1;
      }
      assert BroadcastFrom(conns, i, alive) == Delivery([], conns);
    }

    /** The broadcast as evidently intended: every connection whose send
        succeeds receives the message, and every one whose send fails is removed. */
    method BroadcastToSession(sessionId: string, alive: int -> bool) returns (sent: seq<int>)
      modifies this
      ensures sessionId !in old(activeConnections) ==> sent == [] && activeConnections == old(activeConnections)
      ensures sessionId in old(activeConnections) ==>
                sent == Live(old(activeConnections)[sessionId], alive)
                && activeConnections == old(activeConnections)[sessionId := sent]
    {
      sent := [];
      if sessionId !in activeConnections {
        return;
      }
      var conns := activeConnections[sessionId];
      for i := 0 to |conns|
        invariant activeConnections == old(activeConnections) && conns == old(activeConnections)[sessionId]
        invariant sent == Live(conns[..i], alive)
      {
        LiveStep(conns[..i], conns[i], alive);
        assert conns[..i + 1] == conns[..i] + [conns[i]];
        if alive(conns[i]) {
          sent := sent + [conns[i]];
        }
      }
      assert conns[..|conns|] == conns;
      activeConnections := activeConnections[sessionId := sent];
    }
  }

  /** On the input that defeats the broadcast as written, the intended one
      reaches the live successor and keeps only it. */
  lemma IntendedBroadcastReachesSuccessor()
    ensures var alive := (c: int) => c != 1;
            Live([1, 2], alive) == [2]
  {
    var alive := (c: int) => c != 1;
    assert [1, 2][1..] == [2];
    assert Live([2], alive) == [2] + Live([], alive);
  }
}
