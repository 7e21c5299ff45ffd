/**
 * The session registry (`ACTIVE_SESSIONS` and `active_sessions.json`): a map
 * from session id to a session record, reconciled against the containers
 * Docker knows.  Docker is the parameter `containers`, the map from each
 * existing container's id to its status (`containers.get` finds stopped
 * containers too, so existence, not running, is what keeps a session).
 * Clock readings, generated ids and the agent run are parameters as well.
 */
module Sessions {
  import opened Optional
  import opened Json
  import opened Conversation

  type SessionId = string
  type ContainerId = string

  datatype Session = Session(
    sessionId: SessionId,
    containerId: ContainerId,
    workdir: string,
    created: string,
    lastTask: string,
    history: seq<Json>,
    status: string,
    lastActivity: Option<string>)

  /** The sessions file: absent, a readable document of sessions, or unreadable JSON. */
  datatype SessionsFile = Missing | Document(saved: map<SessionId, Session>) | Unreadable

  /** What `get_session` hands back: the workspace, the container and the history. */
  datatype SessionView = SessionView(workdir: string, containerId: ContainerId, history: seq<Json>)

  /** A session as `list_active_sessions` reports it: the record plus its container's status. */
  datatype ActiveSession = ActiveSession(session: Session, containerStatus: string)

  /** Every session references a container that exists. */
  predicate AllBacked(m: map<SessionId, Session>, containers: map<ContainerId, string>) {
    forall k :: k in m ==> m[k].containerId in containers
  }

  /** The map with stale sessions (container gone) removed. */
  function Reconciled(m: map<SessionId, Session>, containers: map<ContainerId, string>): (r: map<SessionId, Session>)
    ensures AllBacked(r, containers)
    ensures forall k :: k in r ==> k in m && r[k] == m[k]
    ensures forall k :: k in m && m[k].containerId in containers ==> k in r
  {
    map k | k in m && m[k].containerId in containers :: m[k]
  }

  /** The sessions `load_sessions` starts from: the file's when it exists, else those in memory. */
  function Loaded(memory: map<SessionId, Session>, file: SessionsFile): map<SessionId, Session>
    requires !file.Unreadable?
  {
    if file.Document? then file.saved else memory
  }

  /** The record `create_session` inserts: active, with an empty history, last task the task. */
  function NewSession(id: SessionId, containerId: ContainerId, base: string, now: string, task: string): (s: Session)
    ensures s.sessionId == id && s.containerId == containerId && s.lastTask == task
    ensures s.status == "active" && s.history == [] && s.lastActivity == None
    ensures s.workdir == base + "/session_" + id && s.created == now + "Z"
  {
    Session(id, containerId, base + "/session_" + id, now + "Z", task, [], "active", None)
  }

  /** The record after `update_session_conversation`; an empty or missing task keeps the old one. */
  function Updated(s: Session, history: seq<Json>, lastTask: Option<string>, now: string): (r: Session)
    ensures r.history == history && r.lastActivity == Some(now + "Z")
    ensures r.lastTask == if lastTask.Some? && lastTask.value != "" then lastTask.value else s.lastTask
    ensures r.sessionId == s.sessionId && r.containerId == s.containerId && r.workdir == s.workdir
    ensures r.created == s.created && r.status == s.status
  {
    s.(history := history, lastActivity := Some(now + "Z"),
       lastTask := if lastTask.Some? && lastTask.value != "" then lastTask.value else s.lastTask)
  }

  /** Reconciling twice changes nothing more. */
  lemma ReconcileIdempotent(m: map<SessionId, Session>, containers: map<ContainerId, string>)
    ensures Reconciled(Reconciled(m, containers), containers) == Reconciled(m, containers)
  {
  }

  /** A map that is already backed is its own reconciliation. */
  lemma ReconcileBacked(m: map<SessionId, Session>, containers: map<ContainerId, string>)
    requires AllBacked(m, containers)
    ensures Reconciled(m, containers) == m
  {
  }

  /** The sessions in memory after `load_sessions`. */
  function AfterLoad(memory: map<SessionId, Session>, file: SessionsFile, containers: map<ContainerId, string>): (r: map<SessionId, Session>)
    ensures AllBacked(r, containers)
  {
    if file.Unreadable? then map[] else Reconciled(Loaded(memory, file), containers)
  }

  /** How a task run ended. */
  datatype RunOutcome = Completed(id: SessionId) | SessionNotFound | ProvisioningFailed

  class SessionRegistry {
    var sessions: map<SessionId, Session>
    var file: SessionsFile

    /** The registry at start-up: nothing in memory, whatever is on disk. */
    constructor(onDisk: SessionsFile)
      ensures sessions == map[] && file == onDisk
    {
      sessions := map[];
      file := onDisk;
    }

    /** `save_sessions`: the file becomes a document of the sessions in memory. */
    method Save()
      modifies this
      ensures sessions == old(sessions) && file == Document(sessions)
    {
      file := Document(sessions);
    }

    /**
     * `load_sessions`: read the file when it exists, drop every session whose
     * container is gone (collected first, then deleted) and save.  An
     * unreadable file leaves the registry empty and the file as it was.
     */
    method LoadSessions(containers: map<ContainerId, string>)
      modifies this
      ensures old(file).Unreadable? ==> sessions == map[] && file == old(file)
      ensures !old(file).Unreadable? ==>
                sessions == Reconciled(Loaded(old(sessions), old(file)), containers) && file == Document(sessions)
    {
      if file.Unreadable? {
        sessions := map[];
        return;
      }
      if file.Document? {
        sessions := file.saved;
      }
      var stale := StaleKeys(sessions, containers);
      ghost var before := sessions;
      sessions := RemoveKeys(sessions, stale);
      ReconciledIs(before, containers, sessions);
      file := Document(sessions);
    }

    /**
     * `create_session`: the container is started by the caller (`started`);
     * when it could not be started nothing changes.  Otherwise the new active
     * session is stored under `newId` (an existing entry with that id is
     * overwritten: the id is not checked for uniqueness) and saved.
     */
    method CreateSession(task: string, newId: SessionId, base: string, now: string, started: Option<ContainerId>)
      returns (workdir: Option<string>)
      modifies this
      ensures started.None? ==> workdir.None? && sessions == old(sessions) && file == old(file)
      ensures started.Some? ==>
                && sessions == old(sessions)[newId := NewSession(newId, started.value, base, now, task)]
                && file == Document(sessions)
                && workdir == Some(base + "/session_" + newId)
    {
      if started.None? {
        return None;
      }
      var s := NewSession(newId, started.value, base, now, task);
      sessions := sessions[newId := s];
      file := Document(sessions);
      workdir := Some(s.workdir);
    }

    /**
     * `get_session`: an unknown id gives nothing; a known id whose container
     * is gone is deleted (and the deletion saved) and gives nothing; otherwise
     * the session's workspace, container and history, with nothing changed.
     */
    method GetSession(id: SessionId, containers: map<ContainerId, string>) returns (r: Option<SessionView>)
      modifies this
      ensures id !in old(sessions) ==> r.None? && sessions == old(sessions) && file == old(file)
      ensures id in old(sessions) && old(sessions)[id].containerId !in containers ==>
                r.None? && sessions == old(sessions) - {id} && file == Document(sessions)
      ensures id in old(sessions) && old(sessions)[id].containerId in containers ==>
                && sessions == old(sessions) && file == old(file)
                && r == Some(SessionView(sessions[id].workdir, sessions[id].containerId, sessions[id].history))
    {
      if id !in sessions {
        return None;
      }
      var s := sessions[id];
      if s.containerId in containers {
        return Some(SessionView(s.workdir, s.containerId, s.history));
      }
      sessions := sessions - {id};
      file := Document(sessions);
      r := None;
    }

    /**
     * `update_session_conversation`: for a known id, the history is replaced,
     * the activity stamped and the last task replaced by a non-empty new one,
     * then saved; an unknown id is a no-op.
     */
    method UpdateConversation(id: SessionId, history: seq<Json>, lastTask: Option<string>, now: string)
      modifies this
      ensures id !in old(sessions) ==> sessions == old(sessions) && file == old(file)
      ensures id in old(sessions) ==>
                sessions == old(sessions)[id := Updated(old(sessions)[id], history, lastTask, now)]
                && file == Document(sessions)
    {
      if id in sessions {
        sessions := sessions[id := Updated(sessions[id], history, lastTask, now)];
        file := Document(sessions);
      }
    }

    /**
     * `list_active_sessions`: reload, then report every session whose
     * container exists with that container's status.  `keys` names the map
     * entry each report comes from; every entry is reported once.
     */
    method ListActive(containers: map<ContainerId, string>) returns (active: seq<ActiveSession>, ghost keys: seq<SessionId>)
      modifies this
      ensures old(file).Unreadable? ==> sessions == map[] && file == old(file)
      ensures !old(file).Unreadable? ==>
                sessions == Reconciled(Loaded(old(sessions), old(file)), containers) && file == Document(sessions)
      ensures |keys| == |active|
      ensures forall i :: 0 <= i < |active| ==>
                && keys[i] in sessions
                && active[i] == ActiveSession(sessions[keys[i]], containers[sessions[keys[i]].containerId])
      ensures forall k :: k in sessions ==> k in keys
      ensures forall i, j :: 0 <= i < j < |keys| ==> keys[i] != keys[j]
    {
      LoadSessions(containers);
      active := [];
      keys := [];
      var pending := sessions.Keys;
      while pending != {}
        invariant pending <= sessions.Keys
        invariant |keys| == |active|
        invariant forall i :: 0 <= i < |active| ==>
                    && keys[i] in sessions && keys[i] !in pending
                    && active[i] == ActiveSession(sessions[keys[i]], containers[sessions[keys[i]].containerId])
        invariant forall k :: k in sessions && k !in pending ==> k in keys
        invariant forall i, j :: 0 <= i < j < |keys| ==> keys[i] != keys[j]
        decreases pending
      {
        var k :| k in pending;
        var s := sessions[k];
        if s.containerId in containers {
          active := active + [ActiveSession(s, containers[s.containerId])];
          keys := keys + [k];
        }
        pending := pending - {k};
      }
    }

    /**
     * `cleanup_session`: for a known id, stop its container when it still
     * exists (the id of the stopped container is returned), delete the
     * session and save; an unknown id changes nothing.
     */
    method CleanupSession(id: SessionId, containers: map<ContainerId, string>) returns (stopped: Option<ContainerId>)
      modifies this
      ensures id !in old(sessions) ==> stopped.None? && sessions == old(sessions) && file == old(file)
      ensures id in old(sessions) ==>
                && sessions == old(sessions) - {id} && file == Document(sessions)
                && stopped == (if old(sessions)[id].containerId in containers then Some(old(sessions)[id].containerId) else None)
    {
      if id !in sessions {
        return None;
      }
      var cid := sessions[id].containerId;
      stopped := if cid in containers then Some(cid) else None;
      sessions := sessions - {id};
      file := Document(sessions);
    }

    /**
     * `cleanup all`: list the active sessions, then clean up each by the
     * `session_id` its record carries; the count is the number listed.
     * What remains are the reconciled sessions whose key no record names.
     */
    method CleanupAll(containers: map<ContainerId, string>) returns (count: nat)
      modifies this
      ensures !old(file).Unreadable? ==>
                var listed := Reconciled(Loaded(old(sessions), old(file)), containers);
                && sessions == Without(listed, RecordIds(listed))
                && count == |listed.Keys|
      ensures old(file).Unreadable? ==> sessions == map[] && count == 0 && file == old(file)
      ensures !old(file).Unreadable? ==> file == Document(sessions)
    {
      var active;
      ghost var keys;
      active, keys := ListActive(containers);
      ListedCoversRecords(active, keys, sessions);
      CleanupEach(active, containers);
      count := |active|;
    }

    /** Clean up each listed session by the `session_id` its record carries, in listing order. */
    method CleanupEach(active: seq<ActiveSession>, containers: map<ContainerId, string>)
      modifies this
      ensures sessions == Without(old(sessions), IdsOf(active))
      ensures active == [] ==> file == old(file)
      ensures old(file) == Document(old(sessions)) ==> file == Document(sessions)
    {
      ghost var start := sessions;
      var i := 0;
      while i < |active|
        invariant 0 <= i <= |active|
        invariant sessions == Without(start, IdsOf(active[..i]))
        invariant i == 0 ==> file == old(file)
        invariant old(file) == Document(start) ==> file == Document(sessions)
      {
        var id := active[i].session.sessionId;
        IdsOfSnoc(active, i);
        RemoveNamed(start, IdsOf(active[..i]), id);
        var _ := CleanupSession(id, containers);
        i := i + 1;
      }
      assert active[..i] == active;
    }

    /**
     * `run_task_in_session`: reload; continue the given session (an empty id
     * counts as none) or create a new one; run the agent on the prepared
     * input and store the history it returns, with the task as last task.
     */
    method RunTask(task: string, sessionId: Option<SessionId>, containers: map<ContainerId, string>,
                   newId: SessionId, base: string, startedAt: string, finishedAt: string,
                   started: Option<ContainerId>, agent: AgentInput -> seq<Json>)
      returns (outcome: RunOutcome)
      modifies this
      ensures var loaded := AfterLoad(old(sessions), old(file), containers);
        if sessionId.Some? && sessionId.value != "" then
          var id := sessionId.value;
          if id !in loaded then outcome == SessionNotFound && sessions == loaded
          else
            && outcome == Completed(id)
            && sessions == loaded[id := Updated(loaded[id], agent(PrepareInput(loaded[id].history, task)), Some(task), finishedAt)]
        else if started.None? then outcome == ProvisioningFailed && sessions == loaded
        else
          && outcome == Completed(newId)
          && sessions == loaded[newId := Updated(NewSession(newId, started.value, base, startedAt, task),
                                                 agent(Query("User query: " + task)), Some(task), finishedAt)]
      ensures outcome.Completed? ==> file == Document(sessions)
      ensures !outcome.Completed? ==> file == if old(file).Unreadable? then old(file) else Document(sessions)
    {
      LoadSessions(containers);
      var id: SessionId;
      var history: seq<Json>;
      if sessionId.Some? && sessionId.value != "" {
        id := sessionId.value;
        var view := GetSession(id, containers);
        if view.None? {
          return SessionNotFound;
        }
        history := view.value.history;
      } else {
        var workdir := CreateSession(task, newId, base, startedAt, started);
        if workdir.None? {
          return ProvisioningFailed;
        }
        id := newId;
        history := [];
      }
      UpdateConversation(id, agent(PrepareInput(history, task)), Some(task), finishedAt);
      outcome := Completed(id);
    }
  }

  /** The entries of `m` whose key is not in `ids`. */
  function Without(m: map<SessionId, Session>, ids: set<SessionId>): map<SessionId, Session> {
    map k | k in m && k !in ids :: m[k]
  }

  /** The `session_id`s the reports carry. */
  function IdsOf(active: seq<ActiveSession>): set<SessionId> {
    set j | 0 <= j < |active| :: active[j].session.sessionId
  }

  lemma IdsOfSnoc(active: seq<ActiveSession>, i: nat)
    requires i < |active|
    ensures IdsOf(active[..i + 1]) == IdsOf(active[..i]) + {active[i].session.sessionId}
  {
    var a, b := active[..i + 1], active[..i];
    forall id | id in IdsOf(a) ensures id in IdsOf(b) + {active[i].session.sessionId} {
      var j :| 0 <= j < |a| && a[j].session.sessionId == id;
      if j < i {
        assert b[j] == a[j];
      }
    }
    forall id | id in IdsOf(b) ensures id in IdsOf(a) {
      var j :| 0 <= j < |b| && b[j].session.sessionId == id;
      assert a[j] == b[j];
    }
    assert a[i] == active[i];
  }

  /** Deleting one more named id from the entries left over. */
  lemma RemoveNamed(m: map<SessionId, Session>, named: set<SessionId>, id: SessionId)
    ensures Without(m, named) - {id} == Without(m, named + {id})
  {
  }

  /**
   * The scan of `load_sessions`: the keys whose session's container is gone,
   * each once.
   */
  method StaleKeys(m: map<SessionId, Session>, containers: map<ContainerId, string>) returns (stale: seq<SessionId>)
    ensures forall k :: k in stale <==> k in m && m[k].containerId !in containers
  {
    stale := [];
    var pending := m.Keys;
    while pending != {}
      invariant pending <= m.Keys
      invariant forall k :: k in stale ==> k in m && m[k].containerId !in containers
      invariant forall k :: k in m && k !in pending && m[k].containerId !in containers ==> k in stale
      decreases pending
    {
      var k :| k in pending;
      if m[k].containerId !in containers {
        stale := stale + [k];
      }
      pending := pending - {k};
    }
  }

  /** The deletion loop of `load_sessions`: every listed key is removed, every other entry is kept. */
  method RemoveKeys(m: map<SessionId, Session>, ks: seq<SessionId>) returns (r: map<SessionId, Session>)
    ensures forall k :: k in r <==> k in m && k !in ks
    ensures forall k :: k in r ==> r[k] == m[k]
  {
    r := m;
    var i := 0;
    while i < |ks|
      invariant 0 <= i <= |ks|
      invariant forall k :: k in r <==> k in m && k !in ks[..i]
      invariant forall k :: k in r ==> r[k] == m[k]
    {
      assert ks[..i + 1] == ks[..i] + [ks[i]];
      r := r - {ks[i]};
      i := i + 1;
    }
    assert ks[..i] == ks;
  }

  /** Removing exactly the stale keys is reconciling. */
  lemma ReconciledIs(m: map<SessionId, Session>, containers: map<ContainerId, string>, r: map<SessionId, Session>)
    requires forall k :: k in r <==> k in m && m[k].containerId in containers
    requires forall k :: k in r ==> r[k] == m[k]
    ensures r == Reconciled(m, containers)
  {
  }

  /** The `session_id` every record carries. */
  function RecordIds(m: map<SessionId, Session>): (r: set<SessionId>)
    ensures forall k :: k in m ==> m[k].sessionId in r
    ensures forall id :: id in r ==> exists k :: k in m && m[k].sessionId == id
  {
    set k | k in m :: m[k].sessionId
  }

  /** When every record is stored under its own id, `cleanup all` leaves the registry empty. */
  lemma CleanupAllEmpties(listed: map<SessionId, Session>)
    requires forall k :: k in listed ==> listed[k].sessionId == k
    ensures Without(listed, RecordIds(listed)) == map[]
  {
  }

  /** A listing of every entry once names every record's id and has one report per entry. */
  lemma ListedCoversRecords(active: seq<ActiveSession>, keys: seq<SessionId>, listed: map<SessionId, Session>)
    requires |keys| == |active|
    requires forall i :: 0 <= i < |active| ==> keys[i] in listed && active[i].session == listed[keys[i]]
    requires forall k :: k in listed ==> k in keys
    requires forall i, j :: 0 <= i < j < |keys| ==> keys[i] != keys[j]
    ensures IdsOf(active) == RecordIds(listed)
    ensures |active| == |listed.Keys|
  {
    forall k | k in listed ensures listed[k].sessionId in IdsOf(active) {
      var j :| 0 <= j < |keys| && keys[j] == k;
      assert active[j].session == listed[k];
    }
    DistinctKeysCount(keys, listed);
  }

  /** A duplicate-free sequence listing exactly the keys of a map has the map's size. */
  lemma DistinctKeysCount(keys: seq<SessionId>, m: map<SessionId, Session>)
    requires forall k :: k in m ==> k in keys
    requires forall i :: 0 <= i < |keys| ==> keys[i] in m
    requires forall i, j :: 0 <= i < j < |keys| ==> keys[i] != keys[j]
    ensures |keys| == |m.Keys|
  {
    assert m.Keys == set i | 0 <= i < |keys| :: keys[i];
    DistinctCard(keys);
  }

  lemma {:induction false} DistinctCard(keys: seq<SessionId>)
    requires forall i, j :: 0 <= i < j < |keys| ==> keys[i] != keys[j]
    ensures |set i | 0 <= i < |keys| :: keys[i]| == |keys|
  {
    if keys != [] {
      var rest := keys[..|keys| - 1];
      DistinctCard(rest);
      var last := keys[|keys| - 1];
      assert (set i | 0 <= i < |keys| :: keys[i]) == (set i | 0 <= i < |rest| :: rest[i]) + {last};
      assert last !in (set i | 0 <= i < |rest| :: rest[i]);
    }
  }
}
