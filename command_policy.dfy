/** The security check `_validate_command` and the output shaping that the
    terminal service applies to one-shot commands. */
module CommandPolicy {
  import opened Wrappers
  import opened PyStr
  import opened ShellWords

  /** The terminal settings the service reads. */
  datatype Settings = Settings(
    maxOutput: int,                 // terminal_max_output: cap on each captured stream
    timeout: int,                   // terminal_timeout: default bound, in seconds
    allowedCommands: seq<string>,   // terminal_allowed_commands: empty means unrestricted
    forbiddenPatterns: seq<string>) // terminal_forbidden_patterns: substrings that block a command

  /** The defaults of the settings class. */
  function DefaultSettings(): Settings {
    Settings(10000, 30,
      ["ls", "pwd", "cd", "cat", "echo", "grep", "find", "python", "pip", "npm", "node", "git", "docker"],
      ["rm -rf /", "sudo", "chmod 777", "curl | bash"])
  }

  datatype Verdict = Allowed | Rejected(reason: string)

  function ForbiddenReason(pattern: string): string {
    "Command contains forbidden pattern: " + pattern
  }

  const EmptyCommandReason := "Empty command"

  function NotAllowedReason(base: string): string {
    "Command '" + base + "' is not allowed"
  }

  function InvalidFormatReason(message: string): string {
    "Invalid command format: " + message
  }

  /** No forbidden pattern occurs in the command. */
  predicate NoForbidden(command: string, patterns: seq<string>) {
    forall j :: 0 <= j < |patterns| ==> !Contains(command, patterns[j])
  }

  /** The base command, or its basename, is on the allow-list; an empty list allows everything. */
  predicate OnAllowList(base: string, allowed: seq<string>) {
    |allowed| == 0 || base in allowed || Basename(base) in allowed
  }

  /** The index of the first forbidden pattern, in list order, that occurs in the command. */
  function FirstForbidden(command: string, patterns: seq<string>): (first: Option<nat>)
    ensures first.Some? ==> first.value < |patterns| && Contains(command, patterns[first.value])
    ensures first.Some? ==> forall j :: 0 <= j < first.value ==> !Contains(command, patterns[j])
    ensures first.None? <==> NoForbidden(command, patterns)
    decreases |patterns|
  {
    if |patterns| == 0 then None
    else if Contains(command, patterns[0]) then Some(0)
    else match FirstForbidden(command, patterns[1..])
         case None => None
         case Some(k) => Some(k + 1)
  }

  /** The scan over the forbidden patterns, in list order: the index of the
      first pattern that occurs in the command, if any. */
  method FindForbidden(command: string, patterns: seq<string>) returns (first: Option<nat>)
    ensures first == FirstForbidden(command, patterns)
  {
    var i := 0;
    while i < |patterns|
      invariant 0 <= i <= |patterns|
      invariant forall j :: 0 <= j < i ==> !Contains(command, patterns[j])
    {
      if Contains(command, patterns[i]) {
        return Some(i);
      }
      i := i + 1;
    }
    return None;
  }

  /** The verdict of `_validate_command`: forbidden substrings are checked
      first, then the command is split into shell words, then the first word
      is checked against the allow-list. Every failure is a verdict, never an
      exception. */
  function CommandVerdict(command: string, settings: Settings): (v: Verdict)
    // the first forbidden pattern in list order is named, before any tokenising
    ensures forall i :: 0 <= i < |settings.forbiddenPatterns| && Contains(command, settings.forbiddenPatterns[i])
                        && (forall j :: 0 <= j < i ==> !Contains(command, settings.forbiddenPatterns[j]))
                        ==> v == Rejected(ForbiddenReason(settings.forbiddenPatterns[i]))
    // a tokenising error becomes a rejection carrying its message
    ensures NoForbidden(command, settings.forbiddenPatterns) && Tokenise(command).Failure?
            ==> v == Rejected(InvalidFormatReason(Tokenise(command).error))
    // "Empty command" exactly for commands made only of separators
    ensures NoForbidden(command, settings.forbiddenPatterns)
            ==> (v == Rejected(EmptyCommandReason) <==> forall k :: 0 <= k < |command| ==> IsShellSpace(command[k]))
    // otherwise the allow-list decides, by the first word or its basename
    ensures NoForbidden(command, settings.forbiddenPatterns) && Tokenise(command).Success? && |Tokenise(command).value| > 0
            ==> var base := Tokenise(command).value[0];
                v == if OnAllowList(base, settings.allowedCommands) then Allowed else Rejected(NotAllowedReason(base))
    // accepted exactly when nothing forbidden occurs and the command splits into an allowed word list
    ensures v == Allowed <==> NoForbidden(command, settings.forbiddenPatterns) && Tokenise(command).Success?
                              && |Tokenise(command).value| > 0 && OnAllowList(Tokenise(command).value[0], settings.allowedCommands)
  {
    match FirstForbidden(command, settings.forbiddenPatterns)
    case Some(i) => Rejected(ForbiddenReason(settings.forbiddenPatterns[i]))
    case None =>
      match Tokenise(command)
      case Failure(e) =>
        var v := Rejected(InvalidFormatReason(e));
        assert v.reason[0] == 'I';
        v
      case Success(parts) =>
        if |parts| == 0 then Rejected(EmptyCommandReason)
        else if OnAllowList(parts[0], settings.allowedCommands) then Allowed
        else
          var v := Rejected(NotAllowedReason(parts[0]));
          assert v.reason[0] == 'C';
          v
  }

  /** `_validate_command`, with the forbidden patterns scanned by a loop. */
  method ValidateCommand(command: string, settings: Settings) returns (v: Verdict)
    ensures v == CommandVerdict(command, settings)
  {
    var hit := FindForbidden(command, settings.forbiddenPatterns);
    if hit.Some? {
      return Rejected(ForbiddenReason(settings.forbiddenPatterns[hit.value]));
    }
    match Tokenise(command)
    case Failure(e) =>
      v := Rejected(InvalidFormatReason(e));
    case Success(parts) =>
      if |parts| == 0 {
        return Rejected(EmptyCommandReason);
      }
      var base := parts[0];
      if OnAllowList(base, settings.allowedCommands) {
        v := Allowed;
      } else {
        v := Rejected(NotAllowedReason(base));
      }
  }

  // ------------------------------------------------------ output shaping

  const TruncationMarker := "\n... [output truncated]"

  /** A captured stream longer than the cap keeps `text[:cap]` and gets the
      marker; a stream of at most the cap, exactly the cap included, is kept. */
  function Truncate(text: string, cap: int): (r: string)
    ensures |text| <= cap ==> r == text
    ensures |text| > cap ==> |r| >= |TruncationMarker| && r[|r| - |TruncationMarker|..] == TruncationMarker
                             && IsPrefix(r[..|r| - |TruncationMarker|], text)
    ensures |text| > cap >= 0 ==> |r| == cap + |TruncationMarker| && r[..cap] == text[..cap]
  {
    if |text| > cap then Take(text, cap) + TruncationMarker else text
  }

  const StderrHeader := "\n[stderr]:\n"

  /** The combined `output`: stdout, then an stderr section when stderr is non-empty. */
  function CombineOutput(stdout: string, stderr: string): (output: string)
    ensures IsPrefix(stdout, output)
    ensures stderr == [] <==> output == stdout
    ensures stderr != [] ==> output[|stdout|..] == StderrHeader + stderr
  {
    if |stderr| > 0 then stdout + StderrHeader + stderr else stdout
  }
}
