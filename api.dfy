/**
 * The HTTP and WebSocket endpoints of the backend that guard on the session
 * registry: deleting a session, opening a session's WebSocket, reading a
 * process log, the chat view of a conversation and the two search
 * endpoints.  Routing, request bodies and the transport are not modelled;
 * what each endpoint answers and how it changes the registries is.
 */
module Api {
  import opened Optional
  import opened Json
  import opened Conversation
  import opened Sessions
  import opened Processes
  import opened Search
  import opened PyText
  import Connections

  /** An endpoint's answer: a body, an HTTP 404 with its detail, or an HTTP 500 (its detail text is not modelled). */
  datatype Response<T> = Ok(body: T) | NotFound(detail: string) | ServerError

  /** A session `get_session` hands back: known, and its container still exists. */
  predicate Live(m: map<SessionId, Session>, id: SessionId, containers: map<ContainerId, string>) {
    id in m && m[id].containerId in containers
  }

  /** The registry after a `get_session` lookup: a known session whose container is gone is deleted and saved. */
  function AfterLookup(m: map<SessionId, Session>, f: SessionsFile, id: SessionId, containers: map<ContainerId, string>)
    : (r: (map<SessionId, Session>, SessionsFile))
    ensures Live(m, id, containers) || id !in m ==> r == (m, f)
    ensures id in r.0 <==> Live(m, id, containers)
    ensures forall k :: k in r.0 ==> k in m && r.0[k] == m[k]
    ensures forall k :: k in m && k != id ==> k in r.0
  {
    if id in m && m[id].containerId !in containers then (m - {id}, Document(m - {id})) else (m, f)
  }

  /** A lookup that found nothing to delete leaves nothing to delete the next time. */
  lemma LookupIdempotent(m: map<SessionId, Session>, f: SessionsFile, id: SessionId, containers: map<ContainerId, string>)
    ensures var (m', f') := AfterLookup(m, f, id, containers);
      AfterLookup(m', f', id, containers) == (m', f')
  {
  }

  // ---------------------------------------------------------------------------
  // `DELETE /api/sessions/{session_id}` and `/ws/{session_id}`
  // ---------------------------------------------------------------------------

  /**
   * `delete_session`: an id not in memory is a 404 and nothing is cleaned up;
   * otherwise the session is cleaned up and its deletion confirmed.
   */
  method DeleteSession(reg: SessionRegistry, id: SessionId, containers: map<ContainerId, string>)
    returns (r: Response<string>)
    modifies reg
    ensures id !in old(reg.sessions) ==>
              r == NotFound("Session not found") && reg.sessions == old(reg.sessions) && reg.file == old(reg.file)
    ensures id in old(reg.sessions) ==>
              && r == Ok("Session " + id + " deleted successfully")
              && reg.sessions == old(reg.sessions) - {id} && reg.file == Document(reg.sessions)
  {
    if id !in reg.sessions {
      return NotFound("Session not found");
    }
    var _ := reg.CleanupSession(id, containers);
    r := Ok("Session " + id + " deleted successfully");
  }

  /** How the WebSocket handshake ends: accepted, or closed with a close code and reason. */
  datatype SocketOpen = Accepted | Closed(code: int, reason: string)

  /**
   * `websocket_endpoint` up to the handshake: a socket for a session not in
   * memory is closed with code 1008 and never enters the connection table;
   * otherwise it is connected to the session.
   */
  method OpenWebSocket(reg: SessionRegistry, manager: Connections.ConnectionManager, ws: Connections.SocketId, id: SessionId)
    returns (r: SocketOpen)
    modifies manager
    ensures id !in reg.sessions ==>
              r == Closed(1008, "Session not found") && manager.connections == old(manager.connections)
    ensures id in reg.sessions ==>
              r == Accepted && manager.connections == Connections.AfterConnect(old(manager.connections), id, ws)
  {
    if id !in reg.sessions {
      return Closed(1008, "Session not found");
    }
    manager.Connect(ws, id);
    r := Accepted;
  }

  /** Connecting a socket to another session leaves this session's list without it. */
  lemma ConnectOtherSessionAbsent(m: Connections.Table, ws: Connections.SocketId, sid: SessionId, id: SessionId)
    requires sid in m && ws !in m[sid] && id != sid
    ensures ws !in Connections.AfterConnect(m, id, ws)[sid]
  {
  }

  // ---------------------------------------------------------------------------
  // `GET /api/sessions/{session_id}/processes/{pid}/logs`
  // ---------------------------------------------------------------------------

  /** The body of a log read: what `tail` printed and the pid asked for. */
  datatype LogsReply = LogsReply(logs: string, pid: int)

  /**
   * The log path `get_process_logs` reads for a pid: the `log` of the first
   * record with that pid, unless there is none or it is empty.
   */
  function LogFile(rs: seq<ProcessRecord>, pid: int): (r: Option<string>)
    ensures r.None? <==> FirstMatch(rs, pid).None? || rs[FirstMatch(rs, pid).value].log == ""
    ensures r.Some? ==> exists i :: 0 <= i < |rs| && rs[i].pid == pid && rs[i].log == r.value
  {
    var i := FirstMatch(rs, pid);
    if i.None? || rs[i.value].log == "" then None else Some(rs[i.value].log)
  }

  /** A pid no record carries is "Process not found". */
  lemma UntrackedPidHasNoLog(rs: seq<ProcessRecord>, pid: int)
    requires forall i :: 0 <= i < |rs| ==> rs[i].pid != pid
    ensures LogFile(rs, pid).None?
  {
  }

  /** The log of a record is the one read, when no earlier record has its pid. */
  lemma FirstRecordLog(rs: seq<ProcessRecord>, i: nat)
    requires i < |rs| && rs[i].log != ""
    requires forall j :: 0 <= j < i ==> rs[j].pid != rs[i].pid
    ensures LogFile(rs, rs[i].pid) == Some(rs[i].log)
  {
    FirstMatchIs(rs, rs[i].pid, i);
  }

  /** A record appended after a record with the same pid does not change which log is read. */
  lemma AppendKeepsLog(rs: seq<ProcessRecord>, pid: int, rec: ProcessRecord)
    requires FirstMatch(rs, pid).Some?
    ensures LogFile(rs + [rec], pid) == LogFile(rs, pid)
  {
    var i := FirstMatch(rs, pid).value;
    assert forall j :: 0 <= j < i ==> (rs + [rec])[j] == rs[j];
    FirstMatchIs(rs + [rec], pid, i);
  }

  /**
   * `get_process_logs`: a session that `get_session` does not hand back is a
   * 404 "Session not found"; a pid without a (non-empty) log path in the
   * workspace's registry is a 404 "Process not found"; otherwise what `tail`
   * prints for that log path.  `tail` is the parameter `exec`.
   */
  method GetProcessLogs(reg: SessionRegistry, procs: ProcessRegistry, id: SessionId, pid: int,
                        containers: map<ContainerId, string>, exec: string -> string)
    returns (r: Response<LogsReply>)
    modifies reg
    ensures (reg.sessions, reg.file) == AfterLookup(old(reg.sessions), old(reg.file), id, containers)
    ensures !Live(old(reg.sessions), id, containers) ==> r == NotFound("Session not found")
    ensures Live(old(reg.sessions), id, containers) ==>
              var log := LogFile(procs.LoadRegistry(old(reg.sessions)[id].workdir), pid);
              && (log.None? ==> r == NotFound("Process not found"))
              && (log.Some? ==> r == Ok(LogsReply(exec(log.value), pid)))
  {
    var view := reg.GetSession(id, containers);
    if view.None? {
      return NotFound("Session not found");
    }
    var i := procs.FindFirst(view.value.workdir, pid);
    var rs := procs.LoadRegistry(view.value.workdir);
    if i.None? || rs[i.value].log == "" {
      return NotFound("Process not found");
    }
    r := Ok(LogsReply(exec(rs[i.value].log), pid));
  }

  // ---------------------------------------------------------------------------
  // `GET /api/sessions/{session_id}/conversation`
  // ---------------------------------------------------------------------------

  /** The chat view of a session. */
  datatype ConversationReply = ConversationReply(sessionId: SessionId, messages: seq<Message>, lastTask: string, totalMessages: nat)

  /**
   * `get_session_conversation`: an id not in memory is a 404; a history
   * whose flattening raises is a 500; otherwise the messages, the last task
   * and their count.
   */
  function SessionConversation(m: map<SessionId, Session>, id: SessionId, render: Json -> string): (r: Response<ConversationReply>)
    ensures id !in m ==> r == NotFound("Session not found")
    ensures r.ServerError? <==> id in m && !NoneFails(m[id].history)
    ensures r.Ok? ==> r.body.sessionId == id && r.body.lastTask == m[id].lastTask
    ensures r.Ok? ==> r.body.totalMessages == |r.body.messages|
  {
    if id !in m then NotFound("Session not found")
    else
      FlattenSucceeds(m[id].history, 0, render);
      match Flatten(m[id].history, render)
      case None => ServerError
      case Some(ms) => Ok(ConversationReply(id, ms, m[id].lastTask, |ms|))
  }

  /**
   * The messages are those of the user and assistant items in order, the
   * `i`-th with id `user-i` or `ai-i`.
   */
  lemma ConversationMessages(m: map<SessionId, Session>, id: SessionId, render: Json -> string)
    requires SessionConversation(m, id, render).Ok?
    ensures var ms := SessionConversation(m, id, render).body.messages;
      var kept := Kept(m[id].history, render);
      && |ms| == |kept|
      && forall i :: 0 <= i < |ms| ==>
           ms[i].kind == kept[i].0 && ms[i].content == kept[i].1 && ms[i].id == IdPrefix(ms[i].kind) + IntToDecimal(i)
  {
    var h := m[id].history;
    FlattenMatchesKept(h, 0, render);
    var ms := FlattenFrom(h, 0, render).value;
    assert SessionConversation(m, id, render).body.messages == ms;
    assert forall i :: 0 <= i < |ms| ==> ms[i].id == IdPrefix(ms[i].kind) + IntToDecimal(0 + i);
  }

  // ---------------------------------------------------------------------------
  // `POST /api/sessions/{session_id}/search` and `/search/grep`
  // ---------------------------------------------------------------------------

  /** A search answer: the pattern and path asked for and the matches. */
  datatype SearchReply<T> = SearchReply(pattern: string, path: string, matches: seq<T>)

  /**
   * `search_files_endpoint`: a session `get_session` does not hand back is a
   * 404; otherwise the cleaned lines of what `find` printed in the workspace
   * (`exec`), at most 50.
   */
  method SearchFiles(reg: SessionRegistry, id: SessionId, containers: map<ContainerId, string>,
                     pattern: string, path: string, exec: string -> string)
    returns (r: Response<SearchReply<string>>)
    modifies reg
    ensures (reg.sessions, reg.file) == AfterLookup(old(reg.sessions), old(reg.file), id, containers)
    ensures !Live(old(reg.sessions), id, containers) ==> r == NotFound("Session not found")
    ensures Live(old(reg.sessions), id, containers) ==>
              var wd := old(reg.sessions)[id].workdir;
              r == Ok(SearchReply(pattern, path, CleanFindOutput(exec(wd), wd)))
  {
    var view := reg.GetSession(id, containers);
    if view.None? {
      return NotFound("Session not found");
    }
    var wd := view.value.workdir;
    r := Ok(SearchReply(pattern, path, CleanFindOutput(exec(wd), wd)));
  }

  /**
   * `grep_search_endpoint`: a session `get_session` does not hand back is a
   * 404; otherwise the parsed lines of what `grep -rn` printed in the
   * workspace (`exec`), at most 20.
   */
  method GrepSearch(reg: SessionRegistry, id: SessionId, containers: map<ContainerId, string>,
                    pattern: string, path: string, exec: string -> string)
    returns (r: Response<SearchReply<GrepMatch>>)
    modifies reg
    ensures (reg.sessions, reg.file) == AfterLookup(old(reg.sessions), old(reg.file), id, containers)
    ensures !Live(old(reg.sessions), id, containers) ==> r == NotFound("Session not found")
    ensures Live(old(reg.sessions), id, containers) ==>
              var wd := old(reg.sessions)[id].workdir;
              r == Ok(SearchReply(pattern, path, ParseGrepOutput(exec(wd), wd)))
  {
    var view := reg.GetSession(id, containers);
    if view.None? {
      return NotFound("Session not found");
    }
    var wd := view.value.workdir;
    r := Ok(SearchReply(pattern, path, ParseGrepOutput(exec(wd), wd)));
  }

  /** Every grep match the endpoint answers with is tidy, and there are at most 20 of them. */
  lemma GrepMatchesTidy(output: string, workdir: string)
    ensures |ParseGrepOutput(output, workdir)| <= 20
    ensures forall g :: g in ParseGrepOutput(output, workdir) ==> Tidy(g)
  {
    ParseGrepLinesClean(SplitMax(output, '\n', -1), workdir);
  }
}
