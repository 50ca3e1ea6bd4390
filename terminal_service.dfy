/** `TerminalService`: one-shot command execution and the registry of live
    process handles (`active_processes`) shared with interactive sessions.
    Spawning, waiting, reading and killing are done by the operating system;
    here they are oracle values passed in by the caller. */
module Terminal {
  import opened Wrappers
  import opened PyStr
  import opened ShellWords
  import opened CommandPolicy

  /** A process handle held by the registry, known by its process id. */
  datatype Handle = Handle(pid: int)

  /** The request handed to the shell for a one-shot command. */
  datatype ShellRequest = ShellRequest(command: string, cwd: string, env: map<string, string>, timeout: int)

  /** What happens to a one-shot command once it is handed to the shell. */
  datatype ShellRun =
    | SpawnFailed(message: string)                                         // the spawn itself raised
    | Finished(pid: int, returnCode: int, stdout: string, stderr: string)  // ran to completion; streams decoded
    | TimedOut(pid: int)                                                   // the wait expired; killed and drained
    | WaitFailed(pid: int, message: string)                                // waiting raised something else

  /** The host: its current directory and environment, the existence test on
      paths, and the outcome of running a request through the shell. */
  datatype Host = Host(cwd: string, environ: map<string, string>, pathExists: string -> bool, run: ShellRequest -> ShellRun)

  /** What spawning an interactive shell does. */
  datatype Spawn = Spawned(pid: int) | SpawnError(message: string)

  /** What writing to an interactive shell and polling its output does. */
  datatype ShellReply =
    | Replied(text: string)     // up to 4096 bytes arrived within the poll bound, decoded
    | NoReplyInTime             // nothing arrived within 0.1 s
    | PipeFailed(message: string) // writing or reading raised

  /** The dictionary `execute_command` returns; absent keys are None. */
  datatype ExecResult = ExecResult(success: bool, output: string, exitCode: int,
                                   stdout: Option<string>, stderr: Option<string>, error: Option<string>)

  /** The dictionary `create_interactive_session` returns. */
  datatype CreateResult = Created(sessionId: string, pid: int) | CreateFailed(error: string)

  /** The working directory used: the requested one when it is non-empty and exists, else the current one. */
  function ResolveCwd(workingDir: Option<string>, host: Host): (cwd: string)
    ensures cwd == host.cwd || (workingDir.Some? && cwd == workingDir.value && host.pathExists(cwd))
    ensures workingDir.Some? && workingDir.value != "" && host.pathExists(workingDir.value) ==> cwd == workingDir.value
  {
    if workingDir.Some? && workingDir.value != "" && host.pathExists(workingDir.value) then workingDir.value else host.cwd
  }

  /** The inherited environment updated with the requested variables. */
  function MergeEnv(environ: map<string, string>, env: Option<map<string, string>>): (merged: map<string, string>)
    ensures env.Some? ==> merged.Keys == environ.Keys + env.value.Keys
                          && forall k :: k in env.value ==> merged[k] == env.value[k]
    ensures forall k :: k in environ && (env.None? || k !in env.value) ==> k in merged && merged[k] == environ[k]
    ensures env.None? ==> merged == environ
  {
    if env.Some? then environ + env.value else environ
  }

  /** `timeout or terminal_timeout`: a missing or zero timeout takes the default. */
  function EffectiveTimeout(timeout: Option<int>, default: int): (t: int)
    ensures t == default || (timeout.Some? && t == timeout.value && t != 0)
    ensures timeout.Some? && timeout.value != 0 ==> t == timeout.value
  {
    if timeout.None? || timeout.value == 0 then default else timeout.value
  }

  function TimeoutMessage(timeout: int): string {
    "Command timed out after " + IntToString(timeout) + " seconds"
  }

  /** The registry key of a one-shot command: the session id and the spawn time stamp. */
  function ProcessKey(sessionId: string, stamp: string): string {
    sessionId + "_" + stamp
  }

  /** A failure result: no output, exit code -1 and the reason. */
  function FailedResult(message: string): ExecResult {
    ExecResult(false, "", -1, None, None, Some(message))
  }

  /** The result of a command that passed validation, from what the shell did. */
  function RunResult(run: ShellRun, timeout: int, cap: int): (r: ExecResult)
    ensures r.success <==> run.Finished? && run.returnCode == 0
    ensures !run.Finished? ==> r.exitCode == -1 && r.output == "" && r.error.Some? && r.stdout.None? && r.stderr.None?
    ensures run.TimedOut? ==> r.error == Some(TimeoutMessage(timeout))
    ensures run.SpawnFailed? || run.WaitFailed? ==> r.error == Some(run.message)
    ensures run.Finished? ==> && r.exitCode == run.returnCode && r.error.None?
                              && r.stdout == Some(Truncate(run.stdout, cap))
                              && r.stderr == Some(Truncate(run.stderr, cap))
                              && r.output == CombineOutput(r.stdout.value, r.stderr.value)
  {
    match run
    case SpawnFailed(m) => FailedResult(m)
    case Finished(_, rc, out, err) =>
      var o := Truncate(out, cap);
      var e := Truncate(err, cap);
      ExecResult(rc == 0, CombineOutput(o, e), rc, Some(o), Some(e), None)
    case TimedOut(_) => FailedResult(TimeoutMessage(timeout))
    case WaitFailed(_, m) => FailedResult(m)
  }

  /** The condition under which `_validate_command` accepts a command. */
  predicate Permitted(command: string, settings: Settings) {
    && NoForbidden(command, settings.forbiddenPatterns)
    && Tokenise(command).Success?
    && |Tokenise(command).value| > 0
    && OnAllowList(Tokenise(command).value[0], settings.allowedCommands)
  }

  class TerminalService {
    const settings: Settings
    var activeProcesses: map<string, Handle>
    var ready: bool

    constructor (settings: Settings)
      ensures this.settings == settings && activeProcesses == map[] && !ready
    {
      this.settings := settings;
      activeProcesses := map[];
      ready := false;
    }

    /** `initialize` */
    method Initialize()
      modifies this
      ensures ready && activeProcesses == old(activeProcesses)
    {
      ready := true;
    }

    /** `is_ready` */
    function IsReady(): (r: bool)
      reads this
      ensures r <==> ready
    {
      ready
    }

    /** `execute_command`: validate, run through the shell with the resolved
        directory, environment and timeout, and shape the result. The process
        is registered under `ProcessKey(sessionId, stamp)` while it runs and
        removed on every exit path. */
    method ExecuteCommand(command: string, sessionId: string, workingDir: Option<string>,
                          env: Option<map<string, string>>, timeout: Option<int>, stamp: string, host: Host)
      returns (r: ExecResult)
      modifies this
      ensures ready == old(ready)
      ensures !Permitted(command, settings) ==>
                && CommandVerdict(command, settings).Rejected?
                && r.exitCode == -1 && !r.success && r.output == ""
                && r.error == Some(CommandVerdict(command, settings).reason)
                && r.stdout.None? && r.stderr.None?
                && activeProcesses == old(activeProcesses)
      ensures Permitted(command, settings) ==>
                var t := EffectiveTimeout(timeout, settings.timeout);
                var run := host.run(ShellRequest(command, ResolveCwd(workingDir, host), MergeEnv(host.environ, env), t));
                && r == RunResult(run, t, settings.maxOutput)
                && activeProcesses == if run.SpawnFailed? then old(activeProcesses)
                                      else old(activeProcesses) - {ProcessKey(sessionId, stamp)}
      ensures ProcessKey(sessionId, stamp) !in old(activeProcesses) ==> activeProcesses == old(activeProcesses)
    {
      var verdict := ValidateCommand(command, settings);
      if verdict.Rejected? {
        return FailedResult(verdict.reason);
      }
      var cwd := ResolveCwd(workingDir, host);
      var cmdEnv := MergeEnv(host.environ, env);
      var t := EffectiveTimeout(timeout, settings.timeout);
      var run := host.run(ShellRequest(command, cwd, cmdEnv, t));
      if run.SpawnFailed? {
        return FailedResult(run.message);
      }
      var processId := ProcessKey(sessionId, stamp);
      activeProcesses := activeProcesses[processId := Handle(run.pid)];
      r := RunResult(run, t, settings.maxOutput);
      // the `finally` clause
      if processId in activeProcesses {
        activeProcesses := activeProcesses - {processId};
      }
    }

    /** `create_interactive_session`: the new shell is stored under the
        session id, replacing whatever handle was stored there before. */
    method CreateInteractiveSession(sessionId: string, spawn: Spawn) returns (r: CreateResult)
      modifies this
      ensures ready == old(ready)
      ensures spawn.Spawned? ==> r == Created(sessionId, spawn.pid)
                                 && activeProcesses == old(activeProcesses)[sessionId := Handle(spawn.pid)]
      ensures spawn.SpawnError? ==> r == CreateFailed(spawn.message) && activeProcesses == old(activeProcesses)
    {
      match spawn
      case SpawnError(m) =>
        r := CreateFailed(m);
      case Spawned(pid) =>
        activeProcesses := activeProcesses[sessionId := Handle(pid)];
        r := Created(sessionId, pid);
    }

    /** `send_to_session`: None for an unknown session or a failed pipe, the
        empty string when the poll saw nothing. The registry is not changed. */
    method SendToSession(sessionId: string, input: string, reply: ShellReply) returns (out: Option<string>)
      ensures sessionId !in activeProcesses ==> out == None
      ensures sessionId in activeProcesses ==>
                out == match reply
                       case Replied(text) => Some(text)
                       case NoReplyInTime => Some("")
                       case PipeFailed(_) => None
    {
      if sessionId !in activeProcesses {
        return None;
      }
      match reply
      case Replied(text) => out := Some(text);
      case NoReplyInTime => out := Some("");
      case PipeFailed(_) => out := None;
    }

    /** `kill_session`: an unknown id, or a kill that raises, leaves the
        registry as it was and answers false; otherwise exactly that id is removed. */
    method KillSession(sessionId: string, killSucceeds: bool) returns (killed: bool)
      modifies this
      ensures ready == old(ready)
      ensures killed <==> sessionId in old(activeProcesses) && killSucceeds
      ensures killed ==> activeProcesses == old(activeProcesses) - {sessionId}
      ensures !killed ==> activeProcesses == old(activeProcesses)
    {
      if sessionId !in activeProcesses {
        return false;
      }
      if !killSucceeds {
        return false;
      }
      activeProcesses := activeProcesses - {sessionId};
      killed := true;
    }

    /** `cleanup`: every registered process is sent a kill, whose failures are
        ignored; then the registry is emptied and the service is no longer
        ready. `signalled` is the set of ids whose process was sent the kill. */
    method Cleanup() returns (signalled: set<string>)
      modifies this
      ensures signalled == old(activeProcesses).Keys
      ensures activeProcesses == map[] && !ready
    {
      signalled := {};
      var pending := activeProcesses.Keys;
      while pending != {}
        invariant pending <= activeProcesses.Keys
        invariant signalled == activeProcesses.Keys - pending
        decreases pending
      {
        var id :| id in pending;
        signalled := signalled + {id};
        pending := pending - {id};
      }
      activeProcesses := map[];
      ready := false;
    }
  }
}
