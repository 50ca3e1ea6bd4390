# Qwen Coder Interface backend — a Dafny model

This project models the core of the backend of the Qwen Coder Interface. The backend is a FastAPI server that sits in front of a local code model and offers:

- chat and code completion through the model;
- a restricted shell that runs one-shot commands and hosts interactive sessions;
- a file-tree listing;
- per-user sessions that keep a bounded conversation context;
- a WebSocket hub that routes messages and broadcasts to a session's connections.

The model is written in the source's own form:

- The services whose methods update their attributes become classes:
  - `TerminalService`, with its registry of running processes and its ready flag;
  - `SessionManager`, with its map of sessions;
  - `ModelService`, with its ready flag and its model and tokenizer slots;
  - the application `App`, with its map of open connections.
- The loops of the source become methods with loop invariants. These are:
  - the forbidden-pattern scan;
  - the ignore-pattern scan;
  - the file-tree walk;
  - the process-registry cleanup;
  - the session expiry;
  - the completion sampling;
  - the WebSocket frame loop;
  - the broadcast.
- Each method is proved against a specification function, and the properties the source promises are lemmas about those functions.

Modules:

| file | module | models |
|---|---|---|
| `wrappers.dfy` | `Wrappers` | `Option` and `Result` |
| `pystr.dfy` | `PyStr` | the Python string and list operations the services use: substring test, `os.path.basename`, `split`/`join` on a character, `strip`, `split(pat)[0]`, slices and indexing with negative bounds |
| `shell_words.dfy` | `ShellWords` | `shlex.split` (POSIX mode, whitespace splitting, no comments) as a state machine |
| `command_policy.dfy` | `CommandPolicy` | the terminal settings, `_validate_command`, output truncation and composition |
| `terminal_service.dfy` | `Terminal` | `TerminalService`: `execute_command`, interactive sessions, `send_to_session`, `kill_session`, `cleanup` |
| `file_tree.dfy` | `FileTree` | `get_file_tree` over an abstract directory tree |
| `session_manager.dfy` | `Sessions` | `SessionManager` |
| `model_service.dfy` | `Models` | `ModelService`: message framing, the code before the cursor, completion extraction and de-duplication, analysis prompts, load and cleanup |
| `terminal_routes.dfy` | `TerminalRoutes` | the interactive-terminal WebSocket loop and the `/execute`, `/session/create` and `/session/{id}` decisions |
| `main_app.dfy` | `App` | connection bookkeeping, `handle_websocket_message`, `broadcast_to_session`, start-up, shut-down, `/health` |

Everything the services get from outside is a parameter:

- the shell: a `Host` whose `run` gives the outcome of running a request;
- the outcome of spawning a shell;
- a shell's reply to input;
- whether a kill succeeds;
- the language model: a `Sampler` from a request to its text or error;
- the outcome of loading the model;
- the clock: an integer of seconds;
- fresh uuids: strings;
- file reads and writes: `Files`;
- whether each WebSocket send succeeds: `alive`.

Behaviour of the source that the model keeps as it is:

- `create_interactive_session` stores the new shell under the session id, overwriting a handle already stored there. The earlier process keeps running, unregistered.
- `execute_command` reports a truncated stream only through the marker appended to its text.
- A pipe error in `send_to_session` gives `None` and leaves the session registered.
- A `resize` frame does nothing.
- The application and the terminal router each create their own `TerminalService`. The router's instance is never initialised or cleaned up. Its readiness stays false, and its processes survive shut-down (`App.App.Shutdown`).
- A chat message answered over the WebSocket always carries empty content. `generate_response` in streaming mode returns the empty string it started with.

## Model

| member | source | states |
|---|---|---|
| CommandPolicy.FirstForbidden | qwen-coder-interface/backend/services/terminal_service.py:37-40 | The index of the first forbidden pattern, in list order, that occurs in the command. None exactly when no pattern occurs. |
| CommandPolicy.FindForbidden | qwen-coder-interface/backend/services/terminal_service.py:37-40 | The loop over the patterns computes exactly `FirstForbidden`. |
| CommandPolicy.ValidateCommand | qwen-coder-interface/backend/services/terminal_service.py:34-62 | The method, with its scan of the forbidden patterns, returns exactly `CommandVerdict`. |
| CommandPolicy.CommandVerdict | qwen-coder-interface/backend/services/terminal_service.py:34-62 | The first forbidden pattern is reported before any tokenising. A shlex error becomes "Invalid command format: …". "Empty command" is returned exactly for an all-whitespace command. Otherwise the first word, or its basename, must be on a non-empty allow-list. The command is accepted exactly when all of these pass. |
| CommandPolicy.Truncate | qwen-coder-interface/backend/services/terminal_service.py:123-127 | A stream of at most the cap is unchanged. A longer one keeps its first `cap` characters followed by the truncation marker. |
| CommandPolicy.CombineOutput | qwen-coder-interface/backend/services/terminal_service.py:129-132 | The output starts with stdout. It equals stdout exactly when stderr is empty; otherwise it continues with the stderr header and stderr. |
| ShellWords.Lex | qwen-coder-interface/backend/services/terminal_service.py:44 | A failed split carries one of `shlex`'s two messages, "No closing quotation" or "No escaped character". |
| ShellWords.Tokenise | qwen-coder-interface/backend/services/terminal_service.py:44 | `shlex.split` fails only with one of its two messages. It yields no words exactly when the command consists only of separators. |
| ShellWords.TokeniseUnwords | qwen-coder-interface/backend/services/terminal_service.py:44 | Round trip: non-empty words of plain characters, joined by spaces, split back into the same words. |
| ShellWords.TokeniseSingleQuoted | qwen-coder-interface/backend/services/terminal_service.py:44 | Round trip: any words without a single quote, each single-quoted and joined by spaces, split back into the same words. This includes empty words and words with spaces. |
| ShellWords.NoWordsIffBlank | qwen-coder-interface/backend/services/terminal_service.py:44-46 | The lexer, started between words, yields no words exactly when the text consists only of separators. |
| ShellWords.StartedWordIsKept | qwen-coder-interface/backend/services/terminal_service.py:44-46 | Once a word or a quote has started, a successful split yields at least one word. |
| PyStr.ContainsIffOccurs | qwen-coder-interface/backend/services/terminal_service.py:39 | `p in s` holds exactly when `p` occurs at some index of `s`. |
| PyStr.Basename | qwen-coder-interface/backend/services/terminal_service.py:55 | The basename is the longest suffix of the path that contains no '/'. |
| PyStr.JoinSplit | qwen-coder-interface/backend/services/model_service.py:172-177 | Joining the pieces of `split(sep)` with `sep` gives back the string. |
| PyStr.SplitJoin | qwen-coder-interface/backend/services/model_service.py:172-177 | Splitting the join of separator-free pieces gives back the pieces. |
| PyStr.Strip | qwen-coder-interface/backend/services/model_service.py:196-198 | The result is the slice of the input that starts after its leading whitespace. |
| PyStr.StripSpec | qwen-coder-interface/backend/services/model_service.py:196-198 | `strip` removes only whitespace, and all of it, from both ends. The result is empty or begins and ends with a non-space. |
| PyStr.BeforeFirst | qwen-coder-interface/backend/services/model_service.py:195-196 | `s.split(pat)[0]` is a prefix of `s` with no earlier occurrence of `pat`. It is either all of `s` or ends where `pat` begins. |
| PyStr.BeforeFirstAbsent | qwen-coder-interface/backend/services/model_service.py:195-198 | When the pattern does not occur, `split(pat)[0]` is the whole string. So both branches of the fence test cut the same way. |
| PyStr.At | qwen-coder-interface/backend/services/model_service.py:179 | Indexing succeeds exactly for indices in [-len, len). A negative index counts from the end. |
| PyStr.SliceBound | qwen-coder-interface/backend/services/session_manager.py:96 | Normalises a slice bound the way CPython does, clamped to [0, len]. |
| Terminal.ResolveCwd | qwen-coder-interface/backend/services/terminal_service.py:84-88 | A non-empty working directory that exists is used. Anything else falls back to the process's directory. |
| Terminal.MergeEnv | qwen-coder-interface/backend/services/terminal_service.py:90-93 | The merged environment has the union of the keys. The request's variables override the inherited ones, and with no request env it is the inherited environment. |
| Terminal.EffectiveTimeout | qwen-coder-interface/backend/services/terminal_service.py:96 | A non-zero timeout is used. None or 0 falls back to the configured default. |
| Terminal.RunResult | qwen-coder-interface/backend/services/terminal_service.py:114-165 | Success exactly when the process finished with code 0. A finished run carries its exit code, the truncated streams and the combined output. A timeout, spawn failure or wait failure gives exit code -1, empty output, no streams, and the timeout message or the exception text. |
| Terminal.TerminalService.constructor | qwen-coder-interface/backend/services/terminal_service.py:20-23 | Starts with the given settings, an empty registry and not ready. |
| Terminal.TerminalService.Initialize | qwen-coder-interface/backend/services/terminal_service.py:25-28 | The service becomes ready. The registry is unchanged. |
| Terminal.TerminalService.IsReady | qwen-coder-interface/backend/services/terminal_service.py:30-32 | Returns the ready flag. |
| Terminal.TerminalService.ExecuteCommand | qwen-coder-interface/backend/services/terminal_service.py:64-165 | A rejected command gives exit code -1 with the reason `CommandVerdict` names as its error, and nothing is run. An accepted one runs with the resolved directory, environment and timeout, and its result is `RunResult`. The process key is removed again on every path, so a fresh key leaves the registry as it was. |
| Terminal.TerminalService.CreateInteractiveSession | qwen-coder-interface/backend/services/terminal_service.py:167-197 | A spawned shell is stored under the session id, replacing any earlier handle, and its pid is returned. A failed spawn returns the error and leaves the registry unchanged. |
| Terminal.TerminalService.SendToSession | qwen-coder-interface/backend/services/terminal_service.py:199-228 | An unknown session gives None. Otherwise: the shell's text, "" when the read timed out, or None on a pipe error. The registry is never changed. |
| Terminal.TerminalService.KillSession | qwen-coder-interface/backend/services/terminal_service.py:230-245 | Returns true exactly when the id is registered and the kill succeeds; then exactly that id is removed. Otherwise the registry is unchanged. |
| Terminal.TerminalService.Cleanup | qwen-coder-interface/backend/services/terminal_service.py:309-321 | Every registered process is signalled. Afterwards the registry is empty and the service is not ready. |
| FileTree.IgnoreList | qwen-coder-interface/backend/services/terminal_service.py:255-257 | A missing or empty pattern list takes the five defaults. |
| FileTree.ShouldIgnore | qwen-coder-interface/backend/services/terminal_service.py:259-263 | A name is ignored exactly when some pattern occurs in it as a substring. |
| FileTree.InsertByName | qwen-coder-interface/backend/services/terminal_service.py:278 | Insertion adds exactly the one entry; the multiset is preserved. |
| FileTree.InsertSorted | qwen-coder-interface/backend/services/terminal_service.py:278 | Insertion keeps a listing sorted by name. |
| FileTree.SortByName | qwen-coder-interface/backend/services/terminal_service.py:278 | `sorted(iterdir())` is ordered by name and is a permutation of the listing. |
| FileTree.ChildPath | qwen-coder-interface/backend/services/terminal_service.py:270-271 | A child's path extends its parent's path and ends with the child's name. |
| FileTree.Build | qwen-coder-interface/backend/services/terminal_service.py:265-296 | Gives None exactly at or below `max_depth`. The name, path and kind are the entry's; a file carries its stat, if any. A refused listing gives no children and "Permission denied". |
| FileTree.BuildChildren | qwen-coder-interface/backend/services/terminal_service.py:275-283 | There is at most one child per listed entry, and none at the last level. |
| FileTree.BuildChildrenSpec | qwen-coder-interface/backend/services/terminal_service.py:275-283 | No child has an ignored name. Every child's path is its parent's path plus its name, and its name comes from the listing. Above the last level there is exactly one child per visible entry, in listing order. |
| FileTree.BuildChildrenAreTrees | qwen-coder-interface/backend/services/terminal_service.py:278-282 | Above the last level, each child is its entry's tree: child k is the tree built one level deeper from the k-th visible entry, with its kind, stat and grandchildren. |
| FileTree.BuildTree | qwen-coder-interface/backend/services/terminal_service.py:265-296 | The recursive walk with its loop over the sorted listing computes exactly `Build`. |
| FileTree.GetFileTree | qwen-coder-interface/backend/services/terminal_service.py:247-307 | A missing path gives "Path does not exist". `max_depth <= 0` gives no tree. Otherwise the root is built at depth 0 with the effective ignore list. |
| FileTree.ChildrenSorted | qwen-coder-interface/backend/services/terminal_service.py:276-283 | A directory's children come out in name order. |
| FileTree.BuildHeight | qwen-coder-interface/backend/services/terminal_service.py:266-280 | A tree built at `depth` is at most `max_depth - depth` levels deep. |
| FileTree.BuildChildrenHeight | qwen-coder-interface/backend/services/terminal_service.py:276-283 | Every child built at `depth` is at most `max_depth - depth - 1` levels deep. |
| FileTree.DefaultsHideDotfiles | qwen-coder-interface/backend/services/terminal_service.py:255-263 | With the default patterns, substring matching also hides `.gitignore` and `.github` but not `src`. |
| FileTree.NameLeTotal | qwen-coder-interface/backend/services/terminal_service.py:278 | Name order is total. |
| FileTree.NameLeTrans | qwen-coder-interface/backend/services/terminal_service.py:278 | Name order is transitive. |
| Sessions.NewSessionIsBlank | qwen-coder-interface/backend/services/session_manager.py:26-34 | A new record has the given id, both times equal to now, no context, no files, working directory "." and no settings, and is not expired at its creation time. |
| Sessions.ApplyPatch | qwen-coder-interface/backend/services/session_manager.py:48-49 | Each of the six fields takes the update's value when its key is present and keeps the stored value when it is absent. The last activity becomes the current time. |
| Sessions.ApplyPatchIdempotent | qwen-coder-interface/backend/services/session_manager.py:48-49 | Applying the same update twice at the same time is applying it once. |
| Sessions.ApplyPatchTwice | qwen-coder-interface/backend/services/session_manager.py:48-49 | Two updates in a row equal one update in which each key takes the later value, at the later time. |
| Sessions.NewMessage | qwen-coder-interface/backend/services/session_manager.py:65-72 | A message has the given role, content and time. Metadata is attached exactly when it is a non-empty dictionary. |
| Sessions.KeepRecent | qwen-coder-interface/backend/services/session_manager.py:77-81 | The context is cut to its last 50 messages once it holds more. |
| Sessions.Record | qwen-coder-interface/backend/services/session_manager.py:74-81 | Recording changes only the context and the last activity. The new context is exactly the last min(50, n + 1) messages of the old context of n messages followed by the new one. |
| Sessions.ContextWindow | qwen-coder-interface/backend/services/session_manager.py:93-98 | No limit, or limit 0, returns everything. A positive limit returns the last `limit` messages. A negative limit drops the first `-limit` messages, as Python's slice does. |
| Sessions.Unexpired | qwen-coder-interface/backend/services/session_manager.py:117-127 | Keeps exactly the sessions idle for no more than 86400 seconds, with their contents unchanged. |
| Sessions.UnexpiredIdempotent | qwen-coder-interface/backend/services/session_manager.py:114-127 | A second expiry at the same time removes nothing more. |
| Sessions.UnexpiredMonotone | qwen-coder-interface/backend/services/session_manager.py:123 | A later expiry keeps no session that an earlier one removed. |
| Sessions.RecordKeepsNewest | qwen-coder-interface/backend/services/session_manager.py:74-81 | After an append: at most 50 messages, the new one last, the whole history kept while it is short, and the activity time refreshed. |
| Sessions.SessionManager.constructor | qwen-coder-interface/backend/services/session_manager.py:13-17 | Starts with no sessions. |
| Sessions.SessionManager.GetOrCreateSession | qwen-coder-interface/backend/services/session_manager.py:19-40 | A missing or empty id takes a fresh uuid. A known session only has its activity refreshed; an unknown one gets a new record. The stored record is returned. |
| Sessions.SessionManager.UpdateSession | qwen-coder-interface/backend/services/session_manager.py:42-51 | Returns false and changes nothing for an unknown id. Otherwise only that session is patched. |
| Sessions.SessionManager.AddToContext | qwen-coder-interface/backend/services/session_manager.py:53-81 | A known or new non-empty id records the message under that id. The empty id leaves a new session under the fresh uuid and fails with `KeyError`. |
| Sessions.SessionManager.GetContext | qwen-coder-interface/backend/services/session_manager.py:83-98 | An unknown id gives nothing. Otherwise it returns the window that `limit` selects. |
| Sessions.SessionManager.DeleteSession | qwen-coder-interface/backend/services/session_manager.py:100-108 | Returns true exactly when the id was present. Only that id is removed. |
| Sessions.SessionManager.ActiveSessionsCount | qwen-coder-interface/backend/services/session_manager.py:110-112 | The number of stored sessions. |
| Sessions.SessionManager.CleanupOldSessions | qwen-coder-interface/backend/services/session_manager.py:114-130 | The two loops, collecting the expired ids and then deleting them, leave exactly `Unexpired`. |
| Sessions.SessionManager.Cleanup | qwen-coder-interface/backend/services/session_manager.py:145-156 | Every session is dropped. |
| Models.BuildMessages | qwen-coder-interface/backend/services/model_service.py:91-101 | The system prompt comes first, then the context in order, then the user's prompt last. |
| Models.CodeBefore | qwen-coder-interface/backend/services/model_service.py:172-179 | It raises `IndexError` exactly for a line number below `-len(lines)`. A cursor at or past the last line gives the whole code. |
| Models.CodeBeforeIsPrefix | qwen-coder-interface/backend/services/model_service.py:172-179 | With the cursor on a line after the first, the code before the cursor is a prefix of the code. |
| Models.CodeBeforeFirstLine | qwen-coder-interface/backend/services/model_service.py:172-179 | On line 0 the text starts with a newline, followed by the first line cut at the column. |
| Models.Completion | qwen-coder-interface/backend/services/model_service.py:194-198 | Both branches compute the text before the first fence, stripped. |
| Models.CompletionHasNoFence | qwen-coder-interface/backend/services/model_service.py:194-198 | A completion never contains a code fence. |
| Models.Suggestions | qwen-coder-interface/backend/services/model_service.py:186-198 | There is one completion per sample drawn. |
| Models.SuggestionAt | qwen-coder-interface/backend/services/model_service.py:186-198 | Entry k of the list is the completion of the k-th sample (empty for a failed sample). |
| Models.SuggestionsAt | qwen-coder-interface/backend/services/model_service.py:186-198 | Every entry of the list is the completion of its own sample. |
| Models.Collect | qwen-coder-interface/backend/services/model_service.py:200-201 | The collected list is no longer than the completions. |
| Models.CollectMembers | qwen-coder-interface/backend/services/model_service.py:200-201 | The list holds exactly the non-empty completions, each exactly once. |
| Models.CollectStep | qwen-coder-interface/backend/services/model_service.py:200-201 | One more completion is appended exactly when it is non-empty and new. |
| Models.CollectKeepsOrder | qwen-coder-interface/backend/services/model_service.py:200-201 | Suggestions keep the order of their first appearance. |
| Models.Completions | qwen-coder-interface/backend/services/model_service.py:159-207 | At most the requested number of suggestions, none empty and none repeated. The list is empty when the cursor line is out of range. |
| Models.CompletionsMembers | qwen-coder-interface/backend/services/model_service.py:159-207 | A string is a suggestion exactly when the cursor line exists, every sample succeeded, the string is non-empty and it is the completion of one of the samples; no suggestion contains a code fence. |
| Models.AnalysisPrompt | qwen-coder-interface/backend/services/model_service.py:219-226 | An unknown analysis kind gets the review prompt. The three other kinds get prompts different from it. |
| Models.ModelService.constructor | qwen-coder-interface/backend/services/model_service.py:17-22 | Starts not ready, with no model or tokenizer. |
| Models.ModelService.Initialize | qwen-coder-interface/backend/services/model_service.py:24-70 | Ready exactly when both the tokenizer and the model load. A failure is re-raised. A tokenizer loaded before the model failed stays loaded. |
| Models.ModelService.IsReady | qwen-coder-interface/backend/services/model_service.py:72-74 | Returns the ready flag. |
| Models.ModelService.GenerateResponse | qwen-coder-interface/backend/services/model_service.py:76-157 | Refused with "Model not initialized" before loading. A model failure propagates. Streaming returns "" and non-streaming returns the decoded text. |
| Models.ModelService.SampleCompletions | qwen-coder-interface/backend/services/model_service.py:184-201 | When every sample succeeds, the loop builds exactly the collected suggestions. Any failed sample aborts it. |
| Models.ModelService.GetCodeCompletions | qwen-coder-interface/backend/services/model_service.py:159-207 | Refused before loading. Once loaded, it returns exactly `Completions`: [] for a line out of range or a failed sample, otherwise the collected suggestions, never more than requested. |
| Models.ModelService.AnalyzeCode | qwen-coder-interface/backend/services/model_service.py:209-244 | Refused before loading. Otherwise it reports the requested kind, the model's text and the code; a model failure propagates. |
| Models.ModelService.Cleanup | qwen-coder-interface/backend/services/model_service.py:246-254 | A loaded model and tokenizer are deleted and the service stops being ready. A second cleanup raises `AttributeError` and stops there. |
| TerminalRoutes.OutputFor | qwen-coder-interface/backend/routes/terminal.py:138-147 | An output frame is sent exactly when the shell replied with non-empty text. |
| TerminalRoutes.FrameStepCalls | qwen-coder-interface/backend/routes/terminal.py:131-163 | One event makes at most one service call, for this session and never a create. It kills exactly on a kill frame or a disconnect, and closes the socket exactly on an exception. |
| TerminalRoutes.SessionCalls | qwen-coder-interface/backend/routes/terminal.py:131-163 | The loop makes at most one call per event, all for this session and none a create. |
| TerminalRoutes.DialogueCreatesOnce | qwen-coder-interface/backend/routes/terminal.py:109-167 | At least one frame is sent. The first call creates the shell and no later call does. A failed spawn makes no other call. |
| TerminalRoutes.Ending | qwen-coder-interface/backend/routes/terminal.py:131-163 | The event that ends the loop is a kill, a disconnect or an exception taken from the stream. |
| TerminalRoutes.TerminalWebSocket | qwen-coder-interface/backend/routes/terminal.py:109-167 | The loop sends and calls exactly what `Dialogue` describes. The shell stays registered unless the loop ended with a kill or disconnect whose kill succeeded. |
| TerminalRoutes.CreateFailureEndsAtOnce | qwen-coder-interface/backend/routes/terminal.py:117-122 | A failed spawn sends one error frame and closes without reading a frame. |
| TerminalRoutes.FirstFrameAnnouncesSession | qwen-coder-interface/backend/routes/terminal.py:124-128 | After a successful spawn, the first frame announces the session id and pid. |
| TerminalRoutes.NothingAfterEnd | qwen-coder-interface/backend/routes/terminal.py:153-167 | Frames after the one that ends the loop have no effect. |
| TerminalRoutes.SilentFramesInvisible | qwen-coder-interface/backend/routes/terminal.py:149-151 | A resize frame, or one of another type, changes nothing. |
| TerminalRoutes.OutputsNonEmpty | qwen-coder-interface/backend/routes/terminal.py:143-147 | No output frame carries empty data. |
| TerminalRoutes.KillCallIffKillOrDisconnect | qwen-coder-interface/backend/routes/terminal.py:153-163 | The session is killed exactly when the loop ends with a kill frame or a disconnect, and the kill is the last call. Any other exception never kills it. |
| TerminalRoutes.SessionOrDefault | qwen-coder-interface/backend/routes/terminal.py:36 | A missing or empty id becomes "default". |
| TerminalRoutes.ExecuteEndpoint | qwen-coder-interface/backend/routes/terminal.py:29-46 | The command runs under the request's id, or "default". A rejected command returns the failure with `CommandVerdict`'s reason and leaves the registry alone. An accepted one returns `RunResult` and leaves the registry without the command's process key. |
| TerminalRoutes.SessionOrFresh | qwen-coder-interface/backend/routes/terminal.py:53-55 | A missing or empty id becomes a fresh uuid. |
| TerminalRoutes.CreateEndpoint | qwen-coder-interface/backend/routes/terminal.py:48-68 | A spawned shell is returned and registered. A failed spawn is a 500 carrying the spawn error. |
| TerminalRoutes.DeleteEndpoint | qwen-coder-interface/backend/routes/terminal.py:70-86 | Returns "Session killed" exactly when the kill removed the session. Otherwise it is a 404 "Session not found" and nothing changes. |
| App.RemoveFirst | qwen-coder-interface/backend/app/main.py:134 | `list.remove` drops one element when it is present and nothing otherwise. It adds no element. |
| App.RemoveFirstAt | qwen-coder-interface/backend/app/main.py:134 | Removing `x` whose first occurrence is at `i` splices out exactly position `i`. |
| App.RemoveFirstOccurrence | qwen-coder-interface/backend/app/main.py:134 | The element removed is the first one equal to `x`. The others keep their order. |
| App.RemoveAppended | qwen-coder-interface/backend/app/main.py:116-134 | Removing a connection just appended, when it occurs nowhere earlier, gives back the earlier list. |
| App.Registered | qwen-coder-interface/backend/app/main.py:113-116 | Connecting appends to the session's list, which is created if absent. Other sessions are untouched. |
| App.Unregistered | qwen-coder-interface/backend/app/main.py:133-136 | Disconnecting fails exactly for an unknown session or connection. Otherwise it removes the connection and deletes an emptied session's key; other sessions are untouched. |
| App.RegisterThenUnregister | qwen-coder-interface/backend/app/main.py:113-136 | A disconnect undoes the connect. The one exception is a session previously holding an empty list, whose key is then deleted. |
| App.BroadcastFrom | qwen-coder-interface/backend/app/main.py:196-204 | The broadcast as written only sends to live connections of the session. |
| App.BroadcastSkipsSuccessor | qwen-coder-interface/backend/app/main.py:199-204 | With connections [1, 2] where only 1 fails, 2 is never sent the message, though it stays registered. |
| App.BroadcastAllAlive | qwen-coder-interface/backend/app/main.py:199-204 | When no send fails, the broadcast as written reaches everyone and removes nothing. |
| App.Live | qwen-coder-interface/backend/app/main.py:196-204 | The intended recipients are exactly the connections whose send succeeds, in order. |
| App.IntendedBroadcastReachesSuccessor | qwen-coder-interface/backend/app/main.py:199-204 | On the input that defeats the loop as written, the intended broadcast reaches connection 2. |
| App.ChatContext | qwen-coder-interface/backend/app/main.py:150-153 | The session context is passed to the model message by message, by role and content. |
| App.App.constructor | qwen-coder-interface/backend/app/main.py:46-51 | The three services start unloaded and empty, both terminal services use the default settings, and there are no connections. |
| App.App.Startup | qwen-coder-interface/backend/app/main.py:58-74 | The model loads first. The terminal is initialised only when the model loads, and a load failure propagates. |
| App.App.Shutdown | qwen-coder-interface/backend/app/main.py:76-82 | Model, terminal and sessions are cleaned up in that order, and a failing model cleanup stops the rest. The router's terminal instance is left alone. |
| App.App.Health | qwen-coder-interface/backend/app/main.py:95-106 | Reports the two ready flags and the number of sessions. |
| App.App.Connect | qwen-coder-interface/backend/app/main.py:108-119 | The connection is appended to its session's list. The session (a fresh uuid for the empty id) only has its activity refreshed when known and gets a new record otherwise; other sessions are untouched. |
| App.App.Disconnected | qwen-coder-interface/backend/app/main.py:132-141 | A client disconnect unregisters the connection, which fails for one no longer registered. Any other error closes the socket and leaves it registered. |
| App.App.HandleWebSocketMessage | qwen-coder-interface/backend/app/main.py:143-194 | Routes on the message type. A chat is refused before loading and otherwise answers with what the model returns, or its error. A terminal command is validated and run; a rejected one carries `CommandVerdict`'s reason, and a missing command is a `TypeError` message. A completion is refused before loading, gives [] for a missing code or position, and otherwise returns exactly `Completions` for 3 suggestions. File operations read or write, with I/O errors reported. Any other type gives "Unknown message type: …". |
| App.App.BroadcastAsWritten | qwen-coder-interface/backend/app/main.py:196-204 | The loop that removes failed connections from the list it walks computes exactly `BroadcastFrom`. |
| App.App.BroadcastToSession | qwen-coder-interface/backend/app/main.py:196-204 | The corrected broadcast sends to exactly the live connections, in order, and keeps exactly those registered. |

## Left out

- Process I/O, asynchronous scheduling and concurrency are not modelled. Each `await` is atomic, and the outcomes of `communicate`, `kill`, reads and writes are parameters. Interleavings of concurrent WebSocket handlers are not modelled.
- UTF-8 decoding with replacement is not modelled. Captured output is already text.
- `shlex` is modelled only for the configuration the service uses: POSIX mode, `whitespace_split`, no comment characters. Its other modes are not part of this model.
- The real filesystem is an abstract tree. `Path.resolve`, `exists`, `stat` and the ISO formatting of modification times are given values, and any exception other than `PermissionError` during the walk is not modelled.
- Clocks and `uuid4` are parameters. Activity times are integer seconds rather than ISO strings parsed back with `fromisoformat`.
- Model loading, the chat template, tokenisation, sampling, temperature and top-p, device selection and 8-bit quantisation become the `Sampler` and `LoadOutcome` parameters. Floating point is not modelled.
- `start_cleanup_task` and its hourly loop are not modelled, nor the task cancellation in `SessionManager.cleanup`; the expiry they run is `CleanupOldSessions`.
- The sessions dictionary's aliasing, where the WebSocket handler keeps a reference to a session dict the manager later updates, is not modelled. Sessions are values.
- JSON encoding and decoding, the HTTP and WebSocket transport, CORS and the root endpoint are not modelled. A frame that fails to parse or lacks a key is the `Broken` event.
- The WebSocket endpoint's receive/send loop in the application is modelled as `Connect`, then one `HandleWebSocketMessage` per message, then `Disconnected`.
- The `shell` argument of `create_interactive_session` is not modelled. The spawn outcome is a parameter.
- The file-tree HTTP endpoint (routes/terminal.py:88-107) passes `get_file_tree`'s answer through unchanged. It is modelled by `FileTree.GetFileTree` and has no member of its own.
- routes/chat.py, routes/files.py and the deployment script are not part of this model.
- App.App.HandleWebSocketMessage: a chat message whose content is absent is sent to the model as the empty string, where the source passes `None` to the chat template.
- Sessions.ApplyPatch: keys of an update other than the six session fields, which `dict.update` would add to the session dictionary, are not modelled. A `last_activity` key is overwritten by the current time, as in the source.
- Models.Collect: its own contract states only the length bound. Membership, uniqueness and order are the separate lemmas `CollectMembers`, `CollectStep` and `CollectKeepsOrder`.
- Sessions.SessionManager.AddToContext: requires the fresh id to be non-empty, as a `uuid4` string always is.
- Models.ModelService.SampleCompletions: requires a ready service. The source reaches this loop only after the readiness check in `get_code_completions`.

## Findings

| source | as written | input that shows it | evidently intended | confidence | as-written member | corrected member |
|---|---|---|---|---|---|---|
| qwen-coder-interface/backend/app/main.py:199-204 | `broadcast_to_session` removes a failed connection from the list its `for` loop is walking, so the connection after it slides into the slot already visited and is skipped | session connections [1, 2] where the send to 1 fails: 2 is never sent the message | every connection whose send succeeds receives the message, and every failed one is removed | not executed | App.BroadcastSkipsSuccessor | App.App.BroadcastToSession |
