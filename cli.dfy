/**
 * The interactive command line: how one input line is read as a command
 * (the loop's dispatch), and how `show_sessions` shortens each session's
 * fields for its table.  Running a command is the registry's work
 * (`Sessions.SessionRegistry`); the prompt loop itself is console I/O.
 */
module Cli {
  import opened PyText
  import opened Sessions

  datatype Command =
    | Skip                          // a blank line
    | Quit                          // `quit` or `exit`
    | Help
    | ShowSessions
    | CleanupUsage                  // `cleanup` with no argument
    | CleanupEvery                  // `cleanup all`
    | Cleanup(id: SessionId)
    | ContinueUsage                 // `continue` without a session id and a task
    | Continue(id: SessionId, task: string)
    | NewTask(task: string)         // anything else: the whole line is the task

  const CleanupUsageText := "Usage: cleanup <session_id> or cleanup all"
  const ContinueUsageText := "Usage: continue <session_id> <task>"

  /** The command words, recognised after lower-casing the first word. */
  datatype Keyword = QuitWord | HelpWord | SessionsWord | CleanupWord | ContinueWord | NotAKeyword

  function KeywordOf(w: string): Keyword {
    if w == "quit" || w == "exit" then QuitWord
    else if w == "help" then HelpWord
    else if w == "sessions" then SessionsWord
    else if w == "cleanup" then CleanupWord
    else if w == "continue" then ContinueWord
    else NotAKeyword
  }

  /**
   * One line of input: stripped, split on whitespace into at most three
   * parts, the first lower-cased.  The argument `all` is matched exactly.
   */
  function Dispatch(line: string): (r: Command)
    ensures r == Skip <==> AllSpace(line)
    ensures r.NewTask? ==> r.task == Strip(line) && r.task != []
  {
    var command := Strip(line);
    if command == [] then Skip
    else
      assert !AllSpace(command) by {
        assert !IsSpace(command[0]);
      }
      Parts(SplitWs(command, 2), command)
  }

  /** The command the split words of a non-blank stripped line name. */
  function Parts(parts: seq<string>, command: string): (r: Command)
    requires parts != []
    ensures r != Skip
    ensures r.NewTask? <==> KeywordOf(Lower(parts[0])) == NotAKeyword
    ensures r.NewTask? ==> r.task == command
  {
    match KeywordOf(Lower(parts[0]))
    case QuitWord => Quit
    case HelpWord => Help
    case SessionsWord => ShowSessions
    case CleanupWord =>
      if |parts| < 2 then CleanupUsage
      else if parts[1] == "all" then CleanupEvery
      else Cleanup(parts[1])
    case ContinueWord =>
      if |parts| < 3 then ContinueUsage
      else Continue(parts[1], parts[2])
    case NotAKeyword => NewTask(command)
  }

  /** A line is a new task exactly when it is not blank and its first word is no command word. */
  lemma NewTaskExactly(line: string)
    ensures Dispatch(line).NewTask? <==> !AllSpace(line) && KeywordOf(Lower(SplitWs(Strip(line), 2)[0])) == NotAKeyword
  {
    var command := Strip(line);
    if command != [] {
      assert !AllSpace(command) by {
        assert !IsSpace(command[0]);
      }
    }
  }

  /** The words a command carries are never empty, and `cleanup all` is never taken for a session named `all`. */
  lemma ArgumentsNonEmpty(line: string)
    ensures Dispatch(line).Cleanup? ==> Dispatch(line).id != "all" && Dispatch(line).id != []
    ensures Dispatch(line).Continue? ==> Dispatch(line).id != [] && Dispatch(line).task != []
  {
    var command := Strip(line);
    if command != [] {
      var parts := SplitWs(command, 2);
      forall i | 0 <= i < |parts| ensures parts[i] != [] {
        assert parts[i] in parts;
      }
      PartsArguments(parts, command);
    }
  }

  lemma PartsArguments(parts: seq<string>, command: string)
    requires parts != [] && forall i :: 0 <= i < |parts| ==> parts[i] != []
    ensures Parts(parts, command).Cleanup? ==> Parts(parts, command).id != "all" && Parts(parts, command).id != []
    ensures Parts(parts, command).Continue? ==> Parts(parts, command).id != [] && Parts(parts, command).task != []
  {
  }

  /** Whitespace around a line does not change the command. */
  lemma PaddingIgnored(pre: string, line: string, post: string)
    requires AllSpace(pre) && AllSpace(post) && line != [] && NoSpaceAtEnds(line)
    ensures Dispatch(pre + line + post) == Dispatch(line)
  {
    StripPadded(pre, line, post);
  }

  /** A line of one word is dispatched on it. */
  lemma DispatchOne(w: string)
    requires w != [] && NoSpaceIn(w)
    ensures Dispatch(w) == Parts([w], w)
  {
    SplitWsLone(w, 2);
  }

  /** A line of two words is dispatched on them. */
  lemma DispatchTwo(w1: string, w2: string)
    requires w1 != [] && NoSpaceIn(w1) && w2 != [] && NoSpaceIn(w2)
    ensures Dispatch(w1 + [' '] + w2) == Parts([w1, w2], w1 + [' '] + w2)
  {
    var line := w1 + [' '] + w2;
    assert SplitWs(line, 2) == [w1, w2] by {
      SplitWsWord(w1, w2, 2);
      SplitWsLone(w2, 1);
    }
    assert line[0] == w1[0] && line[|line| - 1] == w2[|w2| - 1];
  }

  /** A line of two words and a trimmed rest is dispatched on the three. */
  lemma DispatchThree(w1: string, w2: string, rest: string)
    requires w1 != [] && NoSpaceIn(w1) && w2 != [] && NoSpaceIn(w2)
    requires rest != [] && NoSpaceAtEnds(rest)
    ensures var line := w1 + [' '] + (w2 + [' '] + rest);
      Dispatch(line) == Parts([w1, w2, rest], line)
  {
    var line := w1 + [' '] + (w2 + [' '] + rest);
    ThreeWords(w1, w2, rest);
    assert line[0] == w1[0] && line[|line| - 1] == rest[|rest| - 1];
  }

  /** `w1 w2 rest` splits, with a limit of two, into its two words and the rest. */
  lemma ThreeWords(w1: string, w2: string, rest: string)
    requires w1 != [] && NoSpaceIn(w1) && w2 != [] && NoSpaceIn(w2)
    requires rest != [] && !IsSpace(rest[0])
    ensures SplitWs(w1 + [' '] + (w2 + [' '] + rest), 2) == [w1, w2, rest]
  {
    var tail := w2 + [' '] + rest;
    assert SplitWs(tail, 1) == [w2, rest] by {
      SplitWsWord(w2, rest, 1);
      SplitWsWhole(rest);
    }
    SplitWsWord(w1, tail, 2);
  }

  /** `continue <id> <task>`, with the command word in any case, names the session and the rest of the line as the task. */
  lemma ContinueParsed(kw: string, id: string, task: string)
    requires KeywordOf(Lower(kw)) == ContinueWord && NoSpaceIn(kw)
    requires id != [] && NoSpaceIn(id)
    requires task != [] && NoSpaceAtEnds(task)
    ensures Dispatch(kw + [' '] + (id + [' '] + task)) == Continue(id, task)
  {
    DispatchThree(kw, id, task);
  }

  /** `continue` with only a session id, or with none, is the usage error. */
  lemma ContinueNeedsTask(kw: string, id: string)
    requires KeywordOf(Lower(kw)) == ContinueWord && NoSpaceIn(kw)
    requires id != [] && NoSpaceIn(id)
    ensures Dispatch(kw) == ContinueUsage
    ensures Dispatch(kw + [' '] + id) == ContinueUsage
  {
    DispatchOne(kw);
    DispatchTwo(kw, id);
  }

  /** `cleanup <id>` stops that session; `cleanup all`, spelt exactly so, stops every one. */
  lemma CleanupParsed(kw: string, id: string)
    requires KeywordOf(Lower(kw)) == CleanupWord && NoSpaceIn(kw)
    requires id != [] && NoSpaceIn(id)
    ensures Dispatch(kw + [' '] + id) == if id == "all" then CleanupEvery else Cleanup(id)
  {
    DispatchTwo(kw, id);
  }

  /** `cleanup` alone is the usage error. */
  lemma CleanupNeedsArgument(kw: string)
    requires KeywordOf(Lower(kw)) == CleanupWord && NoSpaceIn(kw)
    ensures Dispatch(kw) == CleanupUsage
  {
    DispatchOne(kw);
  }

  /**
   * The first word alone decides `quit`/`exit`, `help`, `sessions` and a new
   * task, whatever follows it; a new task is the whole line.
   */
  lemma FirstWordDecides(kw: string, rest: string)
    requires kw != [] && NoSpaceIn(kw)
    requires rest == [] || (IsSpace(rest[0]) && !IsSpace(rest[|rest| - 1]))
    ensures KeywordOf(Lower(kw)) == QuitWord ==> Dispatch(kw + rest) == Quit
    ensures KeywordOf(Lower(kw)) == HelpWord ==> Dispatch(kw + rest) == Help
    ensures KeywordOf(Lower(kw)) == SessionsWord ==> Dispatch(kw + rest) == ShowSessions
    ensures KeywordOf(Lower(kw)) == NotAKeyword ==> Dispatch(kw + rest) == NewTask(kw + rest)
  {
    var line := kw + rest;
    assert Strip(line) == line by {
      assert line[0] == kw[0] && line[|line| - 1] == if rest == [] then kw[|kw| - 1] else rest[|rest| - 1];
    }
    FirstWord(kw, rest);
  }

  /** The first piece of a split is the first word. */
  lemma FirstWord(w: string, rest: string)
    requires w != [] && NoSpaceIn(w) && (rest == [] || IsSpace(rest[0]))
    ensures SplitWs(w + rest, 2) != [] && SplitWs(w + rest, 2)[0] == w
  {
    var t := w + rest;
    assert LStrip(t) == t by {
      LStripPrefix([], t);
      assert [] + t == t;
    }
    WordLengthOf(w, rest);
    assert t[..|w|] == w;
  }

  // ---------------------------------------------------------------------------
  // show_sessions
  // ---------------------------------------------------------------------------

  /** The task column: the first 50 characters, and `...` when there were more. */
  function ShortTask(t: string): (r: string)
    ensures |t| <= 50 ==> r == t
    ensures |t| > 50 ==> |r| == 53 && r[..50] == t[..50] && r[50..] == "..."
  {
    Take(t, 50) + (if |t| > 50 then "..." else "")
  }

  /** The created column: the first 19 characters with every `T` made a space. */
  function ShortCreated(c: string): (r: string)
    ensures |r| == if |c| <= 19 then |c| else 19
    ensures forall i :: 0 <= i < |r| ==> r[i] == if c[i] == 'T' then ' ' else c[i]
  {
    ReplaceChar(Take(c, 19), 'T', ' ')
  }

  /** An ISO stamp `date T time …` is shown as `date time`, to the second. */
  lemma CreatedShown(date: string, time: string, rest: string)
    requires |date| == 10 && |time| == 8
    requires forall i :: 0 <= i < 10 ==> date[i] != 'T'
    requires forall i :: 0 <= i < 8 ==> time[i] != 'T'
    ensures ShortCreated(date + "T" + time + rest) == date + " " + time
  {
    var c := date + "T" + time + rest;
    var r := ShortCreated(c);
    forall i | 0 <= i < 19 ensures r[i] == (date + " " + time)[i] {
      if i < 10 { assert c[i] == date[i]; }
      else if i > 10 { assert c[i] == time[i - 11]; }
    }
  }

  datatype Row = Row(sessionId: SessionId, created: string, lastTask: string, containerStatus: string)

  /** What `show_sessions` prints: a notice when there is no session, else one row per session in list order. */
  datatype Listing = NoActiveSessions | Table(rows: seq<Row>)

  function SessionTable(active: seq<ActiveSession>): (r: Listing)
    ensures r == NoActiveSessions <==> active == []
    ensures r.Table? ==> |r.rows| == |active|
    ensures r.Table? ==> forall i :: 0 <= i < |active| ==>
              && r.rows[i].sessionId == active[i].session.sessionId
              && r.rows[i].created == ShortCreated(active[i].session.created)
              && r.rows[i].lastTask == ShortTask(active[i].session.lastTask)
              && r.rows[i].containerStatus == active[i].containerStatus
  {
    if active == [] then NoActiveSessions else Table(Rows(active))
  }

  function Rows(active: seq<ActiveSession>): (r: seq<Row>)
    ensures |r| == |active|
    ensures forall i :: 0 <= i < |active| ==>
              r[i] == Row(active[i].session.sessionId, ShortCreated(active[i].session.created),
                          ShortTask(active[i].session.lastTask), active[i].containerStatus)
  {
    if active == [] then []
    else
      var s := active[0].session;
      [Row(s.sessionId, ShortCreated(s.created), ShortTask(s.lastTask), active[0].containerStatus)] + Rows(active[1..])
  }
}
