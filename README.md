# crogia backend core, modelled in Dafny

This project models the bookkeeping core of the crogia backend, over two Python files.

`backend/agent_platform.py` runs autonomous development sessions, each in a Docker container. It keeps:

- the session registry (`ACTIVE_SESSIONS`, saved to `active_sessions.json`). It is reconciled against the containers Docker still knows.
- a per-workspace process registry (`.processes.json`). It records the background processes the agent starts.

The file also holds the agent's text tools whose results are parsed from shell output, and the interactive command line:

- `grep_search` and `search_files`;
- `check_ports`;
- `analyze_error`.

`backend/main.py` serves these sessions over HTTP and WebSocket. The models cover:

- its `ConnectionManager`, which tracks each session's open sockets;
- the chat view of a conversation history;
- the endpoints that look a session up before acting: delete, WebSocket open, process logs and the two search endpoints.

Modules, one per concept:

- `Optional`: the `Option` type.
- `PyText`: the Python string built-ins the code relies on. These are `strip`, `split` with and without a separator and `maxsplit`, `lower`, `isdigit`, `int()`, `replace`, slicing and decimal rendering. The module proves their round trips: `split`/`join`, and `int(str(n)) == n`.
- `Json`: conversation items as JSON values.
- `Sessions`: the `SessionRegistry` class. Its fields are the in-memory map and the file's document. Methods:
  - `load_sessions`, `save_sessions`, `create_session`, `get_session`;
  - `update_session_conversation`, `list_active_sessions`, `cleanup_session`;
  - the command line's `cleanup all`;
  - `run_task_in_session`.
- `Processes`: the `ProcessRegistry` class, a map from workspace to the record list its file holds. Methods:
  - `load_registry`, `add_proc`, `mark_stopped`;
  - the `start_process`, `stop_process` and `tail_log` tools.
- `Search`: reading `grep -rn` and `find` output back into matches and relative paths.
- `Ports`: `check_ports` on `netstat -tuln` output.
- `ErrorAnalysis`: `analyze_error`.
- `Conversation`: the chat view of a history, and what the agent is run on.
- `Cli`: the command line's dispatch of one input line, and `show_sessions`' truncated columns.
- `Connections`: the `ConnectionManager` class.
- `Api`: the endpoint guards of `backend/main.py`.

Docker, the clock, generated ids, the agent run and shell output are parameters:

- `containers`: a map from the id of each existing container to its status.
- `render`: Python's `str()` of a non-string value.
- `exec`: what a shell command prints.
- `agent`: the history the agent run returns.

The code keeps a session while its container *exists*: `containers.get` also finds stopped containers. The model follows the code here, not the running status of the container.

## Model

| member | source | states |
|---|---|---|
| Sessions.Reconciled | backend/agent_platform.py:169-177 | Output: every surviving session has an existing container and keeps its record unchanged. Every session whose container exists survives. |
| Sessions.ReconcileIdempotent | backend/agent_platform.py:169-177 | Output: reconciling twice removes nothing more than reconciling once. |
| Sessions.ReconcileBacked | backend/agent_platform.py:169-177 | Output: a registry whose sessions all have containers is left as it is. |
| Sessions.AfterLoad | backend/agent_platform.py:163-181 | Output: after loading, every session in memory has an existing container. This holds on the unreadable-file path too, which empties the registry. |
| Sessions.StaleKeys | backend/agent_platform.py:170-175 | Output: the collected list holds exactly the sessions whose container is gone. |
| Sessions.RemoveKeys | backend/agent_platform.py:176-177 | Output: exactly the listed keys are removed. Every other entry is kept with its record. |
| Sessions.SessionRegistry.LoadSessions | backend/agent_platform.py:163-181 | Success: an existing file replaces memory. The result is the reconciled sessions, and they are saved. Error path: an unreadable file empties memory and the file is left as it was. |
| Sessions.SessionRegistry.Save | backend/agent_platform.py:183-188 | State: the file holds the sessions in memory, and memory is unchanged. |
| Sessions.NewSession | backend/agent_platform.py:203-211 | Output: the new record is active, with an empty history. Its workspace is `<base>/session_<id>`, its created stamp has a trailing `Z`, and its last task is the task. |
| Sessions.SessionRegistry.CreateSession | backend/agent_platform.py:190-223 | Failure path: when the container could not be started, nothing changes. Otherwise: the record is stored under the id, overwriting any existing one, and saved. |
| Sessions.SessionRegistry.GetSession | backend/agent_platform.py:225-240 | Unknown id: nothing, and no change. Known id without a container: it is deleted and the deletion saved, and nothing is returned. Otherwise: the workspace, container and history are returned, with no change. |
| Sessions.Updated | backend/agent_platform.py:244-247 | Output: the history is replaced and the activity stamped. The last task is replaced only by a non-empty task. Every other field is kept. |
| Sessions.SessionRegistry.UpdateConversation | backend/agent_platform.py:242-249 | Unknown id: no-op. Known id: the record becomes the updated record, which is saved. |
| Sessions.SessionRegistry.ListActive | backend/agent_platform.py:251-263 | State: the registry is reloaded first. Output: one report per session, each once, carrying that session's container status. |
| Sessions.SessionRegistry.CleanupSession | backend/agent_platform.py:265-279 | Unknown id: no change. Known id: the session is removed and saved. The container is reported as stopped only if it exists. |
| Sessions.SessionRegistry.CleanupEach | backend/agent_platform.py:720-721 | State: every session named by a listed record's `session_id` is removed. Every other session is kept. |
| Sessions.SessionRegistry.CleanupAll | backend/agent_platform.py:718-722 | State: the reconciled sessions that no record names are left, and the file holds them. Output: the count printed is the number of sessions listed. |
| Sessions.ListedCoversRecords | backend/agent_platform.py:719-722 | Output: the listing names every record's id, with one report per session. |
| Sessions.CleanupAllEmpties | backend/agent_platform.py:718-722 | Output: when every record is stored under its own id, `cleanup all` empties the registry. |
| Sessions.SessionRegistry.RunTask | backend/agent_platform.py:563-629 | State: the registry is reloaded first. A given id is continued; an unknown id is "not found" and the registry is left reloaded. Without an id, a new session is created; a failed start changes nothing more. The agent runs on the prepared input, and its history is stored with the task as last task and saved to the file. |
| Processes.ProcessRegistry.LoadRegistry | backend/agent_platform.py:318-322 | Output: a workspace without a registry file reads as the empty list. Otherwise the file's list is returned. |
| Processes.ProcessRegistry.AddProc | backend/agent_platform.py:327-328 | State: the record is appended at the end. Earlier records and other workspaces are unchanged. |
| Processes.Stopped | backend/agent_platform.py:330-335 | Output: every record with the pid has status "stopped", ended stamp `now` + `Z`. Every other record is as before. Order and length are preserved. |
| Processes.StoppedUnknownPid | backend/agent_platform.py:330-335 | Output: a pid no record has leaves the list unchanged. |
| Processes.StoppedTwice | backend/agent_platform.py:330-335 | Output: stopping twice equals stopping once with the later stamp. |
| Processes.ProcessRegistry.MarkStopped | backend/agent_platform.py:330-335 | State: the loop writes back exactly the stopped list. A missing file is written as the empty list. |
| Processes.ProcessRegistry.StartProcess | backend/agent_platform.py:365-380 | Failure: output whose last line is not an int records nothing. Otherwise: a "running" record with log `.agent_logs/<id>.log` is appended and returned. |
| Processes.ParsePidOfEcho | backend/agent_platform.py:369-374 | Output: after any trimmed earlier output, the pid echoed on the last line is read back exactly. |
| Processes.ParsePidAlone | backend/agent_platform.py:369-374 | Output: a lone echoed pid is read back exactly. |
| Processes.ProcessRegistry.StopProcess | backend/agent_platform.py:383-386 | State: the pid is marked stopped. Output: the status is `sent SIGTERM to <pid>`. |
| Processes.FirstMatch | backend/agent_platform.py:389-395 | Output: the index of the first record with the pid. It is none exactly when no record has that pid. |
| Processes.ProcessRegistry.FindFirst | backend/agent_platform.py:390-391 | Output: the scan returns the first matching index. |
| Processes.ProcessRegistry.TailLog | backend/agent_platform.py:389-395 | "pid not tracked" exactly when no record has the pid. Otherwise: the first match's log. |
| Search.CleanPath | backend/agent_platform.py:444-445 | Output: never starts with `/`, and is never longer than the input. |
| Search.CleanFoundPath | backend/agent_platform.py:444-445 | Output: `<workdir>/<rel>` is cleaned back to `rel`. |
| Search.CleanPlainPath | backend/agent_platform.py:444-445 | Output: a relative path not naming the workspace is unchanged. |
| Search.ParseGrepLine | backend/agent_platform.py:466-478 | Output: a parsed match has stripped text and a path that does not start with `/`. |
| Search.ParseGrepLinesClean | backend/agent_platform.py:466-478 | Output: at most one match per line, and every match is tidy. |
| Search.GrepLineRoundTrip | backend/agent_platform.py:462-478 | Output: `path:n:text` reads back as (path, n, stripped text), even when the text contains `:`. This holds for a plain relative path, and for the `<workdir>/<path>` form that `grep -rn` prints for a search under the workspace, whose prefix is cleaned off. |
| Search.GrepFoundLine | backend/agent_platform.py:462-478 | Output: a grep line for the file `<workdir>/<path>` reads back with the path relative to the workspace. |
| Search.GrepLineOf | backend/agent_platform.py:466-478 | Output: a line `path:n:text` gives the cleaned path, the number `n` and the stripped text. |
| Search.GrepLineNeedsInt | backend/agent_platform.py:468-477 | Output: a line whose line-number field is not an int is skipped, as the `ValueError` of `int()` is caught. |
| Search.GrepLineNeedsTwoColons | backend/agent_platform.py:467-477 | Output: a line with no `:`, or with only one `:`, is skipped. |
| Search.ParseGrepOutput | backend/agent_platform.py:465-480 | Output: at most 20 matches. |
| Search.CleanLinesRelative | backend/agent_platform.py:444-445 | Output: blank lines are dropped, and every path is relative. |
| Search.CleanFindOutput | backend/agent_platform.py:444-447 | Output: at most 50 paths. |
| Search.FindOutputCleaned | backend/agent_platform.py:444-447 | Output: `find`'s newline-terminated output for workspace files is read back as the first 50 relative paths, in order. |
| Ports.FirstPortField | backend/agent_platform.py:534-540 | Output: the position of a line's first `host:digits` field. It is none exactly when no field qualifies. |
| Ports.ListenPortNeedsListen | backend/agent_platform.py:531 | Output: a line without `LISTEN`, or without `:`, names no port. |
| Ports.InRange | backend/agent_platform.py:538-539 | Output: a port is kept exactly when it lies in `[lo, hi]`. |
| Ports.SortedSet | backend/agent_platform.py:553 | Output: `sorted(set(xs))` is strictly increasing and has the same members as `xs`. |
| Ports.UsedPortList | backend/agent_platform.py:529-553 | Output: `used_ports` is strictly increasing and holds exactly the in-range ports of the LISTEN lines. |
| Ports.SuggestSound | backend/agent_platform.py:545-551 | Output: each suggestion is a free port `lo + 100k` within the range, and the suggestions ascend. |
| Ports.SuggestComplete | backend/agent_platform.py:545-551 | Output: when fewer suggestions were made than there was room for, every free grid port was suggested. |
| Ports.SuggestedPorts | backend/agent_platform.py:545-554 | Output: at most five ports, ascending. Each is free, in range and on the 100-step grid. They are the lowest ones: every free grid port up to the last suggestion is suggested. |
| Ports.SuggestNoGaps | backend/agent_platform.py:545-551 | Output: the upward scan passes over no free grid port below its last suggestion. |
| Ports.SuggestionsComplete | backend/agent_platform.py:545-554 | Output: fewer than five suggestions means every free grid port of the range was suggested. |
| Ports.AddressField | backend/agent_platform.py:536-537 | Output: `host:port` names that port, whatever colons `host` contains (IPv6). |
| Ports.FirstAddressField | backend/agent_platform.py:534-540 | Output: a line's port is its first address field's port. |
| ErrorAnalysis.Matched | backend/agent_platform.py:491-505 | Output: suggestions come only from phrases that occur, at most one per phrase. There are none exactly when no phrase occurs. |
| ErrorAnalysis.MatchedAppend | backend/agent_platform.py:491-505 | Output: the suggestions of two tables in a row are those of the first followed by those of the second, so suggestions come in table order. |
| ErrorAnalysis.MatchedOne | backend/agent_platform.py:491-505 | Output: one phrase adds its suggestion exactly once when the text contains it, and nothing otherwise. |
| ErrorAnalysis.MatchedHas | backend/agent_platform.py:491-505 | Output: every phrase that occurs contributes its suggestion. |
| ErrorAnalysis.ErrorType | backend/agent_platform.py:513-518 | Output: the type follows the first match, by priority `error:`, then `exception`, then `warning`, else unknown. All four directions are stated. |
| ErrorAnalysis.AnalyzeError | backend/agent_platform.py:485-520 | Output: the suggestions are never empty. They are exactly the fallback when no phrase matches. The original text is echoed. |
| ErrorAnalysis.FallbackNotAPattern | backend/agent_platform.py:508-511 | Output: the fallback is not a table suggestion, so it never appears as a match. |
| ErrorAnalysis.CaseInsensitive | backend/agent_platform.py:490 | Output: the analysis depends only on the lower-cased text. |
| ErrorAnalysis.ConnectionRefusedSuggested | backend/agent_platform.py:496-497 | Output: "Connection Refused" in any text yields its suggestion. |
| Cli.Dispatch | backend/agent_platform.py:696-738 | Output: a blank line is skipped, and only a blank line is. A new task is the whole stripped line. |
| Cli.Parts | backend/agent_platform.py:700-738 | Output: a new task arises exactly when the lower-cased first word is no command word. |
| Cli.NewTaskExactly | backend/agent_platform.py:735-738 | Output: a line is a new task exactly when it is non-blank and its first word is no command word. |
| Cli.ArgumentsNonEmpty | backend/agent_platform.py:713-733 | Output: command arguments are never empty, and `cleanup all` is never read as a session named `all`. |
| Cli.PaddingIgnored | backend/agent_platform.py:696 | Output: surrounding whitespace does not change the command. |
| Cli.ContinueParsed | backend/agent_platform.py:726-733 | Output: `continue <id> <task…>`, with the command word in any case, names the session, and the whole rest is the task. |
| Cli.ContinueNeedsTask | backend/agent_platform.py:727-729 | Output: `continue`, or `continue <id>`, is the usage error. |
| Cli.CleanupParsed | backend/agent_platform.py:718-724 | Output: `cleanup all` means every session. `cleanup <id>` means that one. |
| Cli.CleanupNeedsArgument | backend/agent_platform.py:714-716 | Output: `cleanup` alone is the usage error. |
| Cli.FirstWordDecides | backend/agent_platform.py:700-711 | Output: the first word alone decides quit/exit, help, sessions and a new task. |
| Cli.ShortTask | backend/agent_platform.py:660 | Output: the first 50 characters, plus `...` exactly when the task was longer. |
| Cli.ShortCreated | backend/agent_platform.py:659 | Output: the first 19 characters, with each `T` replaced by a space. |
| Cli.CreatedShown | backend/agent_platform.py:659 | Output: an ISO stamp is shown as `date time`, to the second. |
| Cli.SessionTable | backend/agent_platform.py:648-663 | Output: "No active sessions" exactly when there are none. Otherwise one row per session in order, with the truncated columns. |
| Conversation.RoleKind | backend/main.py:275-286 | Output: only role `user` (human) and role `assistant` (ai) produce a message. |
| Conversation.PartTexts | backend/main.py:255-262 | Output: at most one value per part. |
| Conversation.PartTextOne | backend/main.py:255-262 | Output: a dictionary part with `output_text` type or a `text` key contributes its text (`""` when absent). A textless dictionary contributes nothing. A string contributes itself, and any other value its `str()`. |
| Conversation.PartTextsAppend | backend/main.py:255-262 | Output: the contributions of a list are those of its parts, in order. |
| Conversation.PartTextsUniform | backend/main.py:255-262 | Output: a list without dictionaries contributes one value per part. A list of textless dictionaries contributes nothing. |
| Conversation.ContentText | backend/main.py:249-273 | Output: a string is kept. List content fails exactly when a dictionary part's text is not a string, and otherwise is a string. Dictionary content without text is `str()` of the dictionary. |
| Conversation.ListContentLines | backend/main.py:252-263 | Output: string parts are joined with newlines, and they split back into the same parts. |
| Conversation.FailureIgnoresRender | backend/main.py:252-263 | Output: whether reducing content fails does not depend on `str()`'s formatting. |
| Conversation.StepFails | backend/main.py:246-273 | Output: one pass of the loop body raises exactly when the item is a dictionary whose content cannot be reduced. |
| Conversation.StepsSucceed | backend/main.py:245-288 | Output: the loop over the items' steps fails exactly when some step fails. |
| Conversation.StepsMatchEmits | backend/main.py:275-286 | Output: the loop emits one message per emitting step, in order, numbered by the count of messages before it. |
| Conversation.NumberedAt | backend/main.py:275-286 | Output: the `i`-th numbered message carries the `i`-th (kind, content) pair and the id of number `from + i`. |
| Conversation.FlattenSucceeds | backend/main.py:245-292 | Output: the view fails exactly when some item fails. |
| Conversation.FlattenMatchesKept | backend/main.py:245-286 | Output: one message per user or assistant item, in order, with its kind and content. The i-th message carries id `user-i` or `ai-i`. |
| Conversation.IdsDistinct | backend/main.py:275-286 | Output: no two messages share an id. |
| Conversation.PrepareInput | backend/agent_platform.py:600-606 | Output: a non-empty history is continued with the task as a new user item. An empty history gives `User query: <task>`. |
| Conversation.FlattenAppend | backend/main.py:245-286 | Output: appending an item that yields a message appends exactly that message, numbered by the count before it. |
| Conversation.ContinuedViewAddsTask | backend/agent_platform.py:600-606 | Output: continuing a session adds exactly one human message to its chat view. |
| Connections.RemoveFirst | backend/main.py:48 | Output: `list.remove` takes out one occurrence (as a multiset), and an absent socket changes nothing. |
| Connections.FirstIndex | backend/main.py:48 | Output: the position of the first occurrence of a socket in a list. |
| Connections.RemoveFirstSplits | backend/main.py:48 | Output: `list.remove` takes out the first occurrence, and the other sockets keep their order. |
| Connections.Kept | backend/main.py:55-60 | Output: exactly the sockets whose send succeeded. |
| Connections.ConnectionManager.Connect | backend/main.py:39-44 | State: the socket is appended to the session's list, which is created when missing. |
| Connections.AfterDisconnect | backend/main.py:46-51 | Missing socket: the `ValueError` exactly, with the table unchanged. Otherwise: the first occurrence is removed, and the entry too when it empties. |
| Connections.ConnectionManager.Disconnect | backend/main.py:46-51 | State: the table becomes the disconnect result. |
| Connections.SendEach | backend/main.py:55-60 | Output: the send loop yields the failed sockets and the delivered ones, in list order. |
| Connections.RemoveDisconnected | backend/main.py:62-64 | Output: the removal loop equals removing each failed socket in turn. |
| Connections.RemoveDropped | backend/main.py:53-64 | Output: removing the failed sockets one by one leaves exactly the successful ones, in their original order. |
| Connections.ConnectionManager.SendMessage | backend/main.py:53-64 | State: the session's list keeps exactly the sockets whose send succeeded, and the key stays even when the list empties. An absent session is a no-op. |
| Connections.SendIdempotent | backend/main.py:53-64 | Output: sending again to the same failures drops nothing more. |
| Connections.ConnectKeepsLists | backend/main.py:39-44 | Output: `connect` never leaves an empty list in the table. |
| Connections.DisconnectKeepsLists | backend/main.py:46-51 | Output: `disconnect` never leaves an empty list in the table. |
| Connections.ConnectThenDisconnect | backend/main.py:39-51 | Output: connecting and then disconnecting a new socket restores the table. |
| Connections.DisconnectAfterFailedSend | backend/main.py:46-64 | Output: a socket dropped by a failed send makes its later `disconnect` raise. A session whose every send failed keeps an empty list. |
| Api.AfterLookup | backend/agent_platform.py:225-240 | State: a lookup deletes only the looked-up session, and only when its container is gone. |
| Api.LookupIdempotent | backend/agent_platform.py:225-240 | State: a second lookup changes nothing more. |
| Api.DeleteSession | backend/main.py:301-309 | Unknown id: 404 "Session not found", and nothing is cleaned up. Otherwise: the session is cleaned up and the deletion confirmed. |
| Api.OpenWebSocket | backend/main.py:464-473 | Unknown session: close code 1008, and the socket never enters the table. Otherwise: it is connected. |
| Api.ConnectOtherSessionAbsent | backend/main.py:468-473 | Output: connecting a socket adds it only to its own session's list. |
| Api.LogFile | backend/main.py:554-561 | Output: the first record with the pid supplies the log. There is none exactly when no record has the pid or that log is empty. |
| Api.UntrackedPidHasNoLog | backend/main.py:554-561 | Output: an untracked pid is "Process not found". |
| Api.FirstRecordLog | backend/main.py:554-561 | Output: the log read is that of the first record with the pid. |
| Api.AppendKeepsLog | backend/main.py:554-561 | Output: later records with the same pid do not change which log is read. |
| Api.GetProcessLogs | backend/main.py:543-564 | No live session: 404 "Session not found". No log: 404 "Process not found". Otherwise: `tail` of the first match's log. |
| Api.SessionConversation | backend/main.py:235-292 | Unknown id: 404. Failing history: 500, exactly when some item fails. Otherwise: `total_messages` equals the number of messages. |
| Api.ConversationMessages | backend/main.py:245-292 | Output: the messages are the user and assistant items in order, with ids `user-i`/`ai-i`. |
| Api.SearchFiles | backend/main.py:662-687 | No live session: 404. Otherwise: the cleaned `find` lines, at most 50. |
| Api.GrepSearch | backend/main.py:695-728 | No live session: 404. Otherwise: the parsed `grep` lines, at most 20. |
| Api.GrepMatchesTidy | backend/main.py:710-727 | Output: at most 20 grep matches, each with a relative path and stripped text. |
| PyText.Strip | backend/agent_platform.py:696 | Output: no whitespace at either end. Empty exactly when the input is all whitespace. Already-trimmed text is unchanged. |
| PyText.SplitPieces | backend/agent_platform.py:466 | Output: no piece but the last contains the separator, and the last does not either when the limit was not reached. |
| PyText.JoinSplit | backend/agent_platform.py:466 | Output: joining the pieces of a split gives back the text. |
| PyText.SplitJoin | backend/agent_platform.py:466 | Output: splitting a join of separator-free parts gives back the parts. |
| PyText.SplitWs | backend/agent_platform.py:700 | Output: the pieces are non-empty and never start with whitespace. The result is empty exactly for blank input. At most `maxsplit + 1` pieces. |
| PyText.Lower | backend/agent_platform.py:490 | Output: same length, each character lower-cased. |
| PyText.LowerIdempotent | backend/agent_platform.py:490 | Output: lower-casing twice equals lower-casing once. |
| PyText.DecimalRoundTrip | backend/agent_platform.py:369-374 | Output: `int(str(n)) == n` for every integer. |
| PyText.DecimalInjective | backend/main.py:277-284 | Output: distinct integers render as distinct decimals. |

## Left out

- Docker itself is out of scope: starting, stopping and inspecting containers, and pulling images. The model has only the map of existing containers and their status. Stopping a container is reported, not performed.
- The shell layer is out of scope. This covers `stream_exec`, the exit codes, and building `find`, `grep`, `kill` and `nohup` command strings. What a command prints is a parameter. The `head -20`/`head -50` and `grep -E` filters in those commands are part of that parameter.
- JSON persistence and its I/O errors are left out. A file is absent, a readable document of sessions, or unreadable. `save_sessions`' swallowed write error is not modelled.
- The agent and language-model loop is left out: `Agent`, `Runner.run_streamed`, event streaming, the console output, and the system prompt. The history the run returns is the parameter `agent`.
- FastAPI routing, request models, CORS and the async transport are left out. So are other endpoints than those in Api: session creation and info, execute, files, shell and health.
- The HTTP 500 detail text (`str(e)`) is left out; a server error is only `ServerError`.
- The WebSocket's receive/echo loop, its `connection_established` message and the 1011 close path are left out.
- The agent's file tools (`write_file`, `read_file`, `append_file`, `list_directory`) and the `fp.exists()` path check of the search tools are left out: they are filesystem I/O.
- `uuid` and `datetime.utcnow()` are parameters (`newId`, `logId`, `now`).
- `create_session` does not check that the new id is unique, and neither does the model: an existing entry is overwritten.
- Dictionary order is left out. Sessions are a map, so `list_active_sessions` and `cleanup all` visit them in an unspecified order, and the listing is specified up to that order.
- Python's `str()` of non-string values is the parameter `render`.
- Unicode is left out. `lower()` and `isdigit()` are modelled on ASCII letters and digits; Python also lowers non-ASCII letters and accepts non-ASCII digits. Whitespace is the full character set of Python's `str.isspace`.
- The console rendering of `show_sessions` and `print_help` is left out. So are the input loop's EOF and interrupt handling.
- `Processes.ProcessRegistry.MarkStopped`: the whole pass uses one `now` reading, whereas Python calls `datetime.utcnow()` once per matching record.
- `Connections.ConnectionManager.SendMessage`: the method is atomic. In the backend each `await send_json` can interleave with `connect`, which grows the list during the loop. It can also interleave with `disconnect`, which can delete the key, so that the later `.remove` raises `KeyError`. The model captures neither.
- `Connections.RemoveFirst`: Python's `list.remove` raises `ValueError` for an absent socket. The model returns the list unchanged. `send_message`'s loop never hits that case, because it removes each failed socket once for each time it occurs. `Disconnect` reports the error as `ok == false`.
- `Search.ParseGrepLines`: the property that output where no line parses gives no matches is not stated.
- Integers are unbounded; no value in the core wraps around.
