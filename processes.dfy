/**
 * The per-workspace process registry (`.processes.json` in each workspace):
 * an append-only list of process records.  Every operation reads the list,
 * changes it and writes it back, so the registry is modelled as the map from
 * workspace to the list its file holds; a workspace without a file has no key.
 * The shell commands run in the container are not part of this model: their
 * output, the generated log id and the clock are parameters.
 */
module Processes {
  import opened Optional
  import opened PyText

  datatype ProcessRecord = ProcessRecord(
    pid: int,
    cmd: string,
    log: string,
    started: string,
    status: string,
    ended: Option<string>)

  /** The record `mark_stopped` leaves for a matching process. */
  function StoppedRecord(p: ProcessRecord, now: string): ProcessRecord {
    p.(status := "stopped", ended := Some(now + "Z"))
  }

  /**
   * The list after `mark_stopped(pid)`: every record with that pid is
   * stopped with the stamp, every other record is as it was.
   */
  function Stopped(rs: seq<ProcessRecord>, pid: int, now: string): (r: seq<ProcessRecord>)
    ensures |r| == |rs|
    ensures forall i :: 0 <= i < |rs| ==> r[i] == if rs[i].pid == pid then StoppedRecord(rs[i], now) else rs[i]
  {
    if rs == [] then []
    else [if rs[0].pid == pid then StoppedRecord(rs[0], now) else rs[0]] + Stopped(rs[1..], pid, now)
  }

  /** A pid no record has leaves the list unchanged. */
  lemma StoppedUnknownPid(rs: seq<ProcessRecord>, pid: int, now: string)
    requires forall i :: 0 <= i < |rs| ==> rs[i].pid != pid
    ensures Stopped(rs, pid, now) == rs
  {
  }

  /** Stopping a pid twice is stopping it once, with the later stamp. */
  lemma StoppedTwice(rs: seq<ProcessRecord>, pid: int, now: string, later: string)
    ensures Stopped(Stopped(rs, pid, now), pid, later) == Stopped(rs, pid, later)
  {
  }

  /** The index of the first record with `pid`, if any. */
  function FirstMatch(rs: seq<ProcessRecord>, pid: int): (r: Option<nat>)
    ensures r.None? <==> forall i :: 0 <= i < |rs| ==> rs[i].pid != pid
    ensures r.Some? ==> r.value < |rs| && rs[r.value].pid == pid
    ensures r.Some? ==> forall i :: 0 <= i < r.value ==> rs[i].pid != pid
  {
    if rs == [] then None
    else if rs[0].pid == pid then Some(0)
    else match FirstMatch(rs[1..], pid)
      case None => None
      case Some(i) => Some(i + 1)
  }

  /**
   * The pid `start_process` reads from the output of `… & echo $!`: the last
   * line of the stripped output as an int; `None` is the `ValueError`.
   */
  function ParsePid(output: string): Option<int> {
    ParseInt(Last(SplitMax(Strip(output), '\n', -1)))
  }

  /** A trimmed non-empty string followed by a newline strips back to itself. */
  lemma StripTrailingNewline(t: string)
    requires t != [] && NoSpaceAtEnds(t)
    ensures Strip(t + "\n") == t
  {
    var s := t + "\n";
    assert s[0] == t[0];
    assert LStrip(s) == s;
    assert s[..|s| - 1] == t;
    assert RStrip(t) == t;
  }

  /** Whatever the earlier output lines, the pid echoed last on its own line is the one read. */
  lemma ParsePidOfEcho(earlier: string, pid: int)
    requires earlier != [] && NoSpaceAtEnds(earlier)
    ensures ParsePid(earlier + "\n" + IntToDecimal(pid) + "\n") == Some(pid)
  {
    var d := IntToDecimal(pid);
    var t := earlier + "\n" + d;
    assert t + "\n" == earlier + "\n" + d + "\n";
    assert t[0] == earlier[0] && t[|t| - 1] == d[|d| - 1];
    StripTrailingNewline(t);
    DecimalLacks(pid, '\n');
    assert t == earlier + ['\n'] + d;
    SplitLastPiece(earlier, d, '\n');
    DecimalRoundTrip(pid);
  }

  /** A lone echoed pid is read back too. */
  lemma ParsePidAlone(pid: int)
    ensures ParsePid(IntToDecimal(pid) + "\n") == Some(pid)
  {
    var d := IntToDecimal(pid);
    StripTrailingNewline(d);
    DecimalLacks(pid, '\n');
    assert Join([d], '\n') == d;
    SplitJoin([d], '\n');
    DecimalRoundTrip(pid);
  }

  /** What `tail_log` reads: the log of the first record with the pid, or the "pid not tracked" error. */
  datatype TailResult = TailOf(logPath: string) | PidNotTracked

  class ProcessRegistry {
    /** The list each workspace's registry file holds. */
    var files: map<string, seq<ProcessRecord>>

    constructor()
      ensures files == map[]
    {
      files := map[];
    }

    /** `load_registry`: the workspace's list; a missing file reads as the empty list. */
    function LoadRegistry(workdir: string): (r: seq<ProcessRecord>)
      reads this
      ensures workdir !in files ==> r == []
      ensures workdir in files ==> r == files[workdir]
    {
      if workdir in files then files[workdir] else []
    }

    /** `add_proc`: the record is appended at the end; earlier records and other workspaces are unchanged. */
    method AddProc(workdir: string, record: ProcessRecord)
      modifies this
      ensures files == old(files)[workdir := old(LoadRegistry(workdir)) + [record]]
      ensures LoadRegistry(workdir)[..|LoadRegistry(workdir)| - 1] == old(LoadRegistry(workdir))
    {
      var data := LoadRegistry(workdir);
      data := data + [record];
      files := files[workdir := data];
    }

    /**
     * `mark_stopped`: every record with the pid gets status "stopped" and the
     * `ended` stamp, in one pass over the list, which is then written back
     * (a missing file is written as the empty list).
     */
    method MarkStopped(workdir: string, pid: int, now: string)
      modifies this
      ensures files == old(files)[workdir := Stopped(old(LoadRegistry(workdir)), pid, now)]
    {
      var data := LoadRegistry(workdir);
      ghost var original := data;
      var i := 0;
      while i < |data|
        invariant 0 <= i <= |data| && |data| == |original|
        invariant forall j :: 0 <= j < i ==> data[j] == if original[j].pid == pid then StoppedRecord(original[j], now) else original[j]
        invariant forall j :: i <= j < |data| ==> data[j] == original[j]
      {
        if data[i].pid == pid {
          data := data[i := StoppedRecord(data[i], now)];
        }
        i := i + 1;
      }
      assert data == Stopped(original, pid, now);
      files := files[workdir := data];
    }

    /**
     * `start_process`: the pid is read from the launch output; when it is not
     * an int nothing is recorded.  Otherwise a "running" record with log
     * `.agent_logs/<logId>.log` is appended and returned.
     */
    method StartProcess(workdir: string, cmd: string, logId: string, output: string, now: string)
      returns (r: Option<ProcessRecord>)
      modifies this
      ensures ParsePid(output).None? ==> r.None? && files == old(files)
      ensures ParsePid(output).Some? ==>
                && r == Some(ProcessRecord(ParsePid(output).value, cmd, ".agent_logs/" + logId + ".log", now + "Z", "running", None))
                && files == old(files)[workdir := old(LoadRegistry(workdir)) + [r.value]]
    {
      var pid := ParsePid(output);
      if pid.None? {
        return None;
      }
      var rec := ProcessRecord(pid.value, cmd, ".agent_logs/" + logId + ".log", now + "Z", "running", None);
      AddProc(workdir, rec);
      r := Some(rec);
    }

    /** `stop_process`: mark the pid stopped and report the signal sent. */
    method StopProcess(workdir: string, pid: int, now: string) returns (status: string)
      modifies this
      ensures files == old(files)[workdir := Stopped(old(LoadRegistry(workdir)), pid, now)]
      ensures status == "sent SIGTERM to " + IntToDecimal(pid)
    {
      MarkStopped(workdir, pid, now);
      status := "sent SIGTERM to " + IntToDecimal(pid);
    }

    /** The search loop of `tail_log` and `get_process_logs`: the first record with the pid. */
    method FindFirst(workdir: string, pid: int) returns (r: Option<nat>)
      ensures r == FirstMatch(LoadRegistry(workdir), pid)
    {
      var data := LoadRegistry(workdir);
      var i := 0;
      while i < |data|
        invariant 0 <= i <= |data|
        invariant forall j :: 0 <= j < i ==> data[j].pid != pid
      {
        if data[i].pid == pid {
          FirstMatchIs(data, pid, i);
          return Some(i);
        }
        i := i + 1;
      }
      r := None;
    }

    /** `tail_log`: the log of the first record with the pid, or the "pid not tracked" error. */
    method TailLog(workdir: string, pid: int) returns (r: TailResult)
      ensures r == PidNotTracked <==> forall i :: 0 <= i < |LoadRegistry(workdir)| ==> LoadRegistry(workdir)[i].pid != pid
      ensures r.TailOf? ==> FirstMatch(LoadRegistry(workdir), pid).Some?
                            && r.logPath == LoadRegistry(workdir)[FirstMatch(LoadRegistry(workdir), pid).value].log
    {
      var i := FindFirst(workdir, pid);
      if i.None? {
        return PidNotTracked;
      }
      r := TailOf(LoadRegistry(workdir)[i.value].log);
    }
  }

  /** The first index with the pid, found by a left-to-right scan. */
  lemma FirstMatchIs(rs: seq<ProcessRecord>, pid: int, i: nat)
    requires i < |rs| && rs[i].pid == pid
    requires forall j :: 0 <= j < i ==> rs[j].pid != pid
    ensures FirstMatch(rs, pid) == Some(i)
  {
    var r := FirstMatch(rs, pid);
    assert r.Some?;
  }
}
