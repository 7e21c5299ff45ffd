/**
 * Reading the output of `grep -rn` and `find` back into results, as both the
 * agent tools (`grep_search`, `search_files`) and the search endpoints do:
 * paths lose the workspace prefix and their leading `/`, grep lines become
 * (file, line number, stripped text), and the lists are cut at 20 and 50.
 */
module Search {
  import opened Optional
  import opened PyText

  /** `path.replace(workdir, "").lstrip("/")`. */
  function CleanPath(path: string, workdir: string): (r: string)
    ensures r == [] || r[0] != '/'
    ensures |r| <= |path|
  {
    LStripChar(RemoveAll(path, workdir), '/')
  }

  /** Removing the workspace from a path that begins with it. */
  lemma RemovePrefix(workdir: string, rest: string)
    requires workdir != []
    ensures RemoveAll(workdir + rest, workdir) == RemoveAll(rest, workdir)
  {
    var s := workdir + rest;
    assert s[..|workdir|] == workdir && s[|workdir|..] == rest;
  }

  /** A path `find` prints under the workspace is cleaned to the path relative to it. */
  lemma CleanFoundPath(workdir: string, rel: string)
    requires workdir != [] && !Contains("/" + rel, workdir)
    requires rel == [] || rel[0] != '/'
    ensures CleanPath(workdir + "/" + rel, workdir) == rel
  {
    assert workdir + "/" + rel == workdir + ("/" + rel);
    RemovePrefix(workdir, "/" + rel);
    assert ("/" + rel)[1..] == rel;
  }

  /** A path that neither contains the workspace nor begins with `/` is kept as it is. */
  lemma CleanPlainPath(path: string, workdir: string)
    requires !Contains(path, workdir)
    requires path == [] || path[0] != '/'
    ensures CleanPath(path, workdir) == path
  {
  }

  // ---------------------------------------------------------------------------
  // grep
  // ---------------------------------------------------------------------------

  datatype GrepMatch = GrepMatch(file: string, line: int, content: string)

  /** A match as the tools return it: stripped text and a path relative to the workspace. */
  predicate Tidy(m: GrepMatch) {
    NoSpaceAtEnds(m.content) && (m.file == [] || m.file[0] != '/')
  }

  /**
   * One output line: skipped (`None`) when it has no `:` or is blank, when it
   * does not split into three fields at the first two `:`, or when the line
   * number is not an int; otherwise the cleaned path, the number and the
   * stripped text after the second `:`.
   */
  function ParseGrepLine(line: string, workdir: string): (r: Option<GrepMatch>)
    ensures r.Some? ==> Tidy(r.value)
  {
    if Find(line, ':') == |line| || Strip(line) == [] then None
    else
      var parts := SplitMax(line, ':', 2);
      if |parts| != 3 then None
      else
        match ParseInt(parts[1])
        case None => None
        case Some(n) => Some(GrepMatch(CleanPath(parts[0], workdir), n, Strip(parts[2])))
  }

  /** The lines that parse, in order. */
  function ParseGrepLines(lines: seq<string>, workdir: string): seq<GrepMatch> {
    if lines == [] then []
    else
      match ParseGrepLine(lines[0], workdir)
      case Some(m) => [m] + ParseGrepLines(lines[1..], workdir)
      case None => ParseGrepLines(lines[1..], workdir)
  }

  lemma ParseGrepLinesCons(line: string, lines: seq<string>, workdir: string)
    ensures ParseGrepLines([line] + lines, workdir) ==
      match ParseGrepLine(line, workdir)
      case Some(m) => [m] + ParseGrepLines(lines, workdir)
      case None => ParseGrepLines(lines, workdir)
  {
    assert ([line] + lines)[1..] == lines;
  }

  /** Every parsed match has stripped text and a relative path, and there are no more matches than lines. */
  lemma {:induction false} ParseGrepLinesClean(lines: seq<string>, workdir: string)
    ensures var r := ParseGrepLines(lines, workdir);
      |r| <= |lines| && forall m :: m in r ==> Tidy(m)
  {
    if lines != [] {
      var rest := ParseGrepLines(lines[1..], workdir);
      ParseGrepLinesClean(lines[1..], workdir);
      match ParseGrepLine(lines[0], workdir)
      case Some(m) =>
        assert ParseGrepLines(lines, workdir) == [m] + rest;
      case None =>
        assert ParseGrepLines(lines, workdir) == rest;
    }
  }

  /** `grep_search`'s result: the parsed lines of the output, at most 20. */
  function ParseGrepOutput(output: string, workdir: string): (r: seq<GrepMatch>)
    ensures |r| <= 20
  {
    Take(ParseGrepLines(SplitMax(output, '\n', -1), workdir), 20)
  }

  /**
   * A line `path:n:text` is read back as the path relative to the workspace,
   * the number and the stripped text (which may itself contain `:`): a plain
   * relative path as it is, and a path `<workdir>/<path>` as grep prints it
   * for a search under the workspace without its prefix.
   */
  lemma GrepLineRoundTrip(path: string, n: int, text: string, workdir: string)
    requires Lacks(path, ':') && (path == [] || path[0] != '/')
    ensures !Contains(path, workdir) ==>
              ParseGrepLine(path + ":" + IntToDecimal(n) + ":" + text, workdir) == Some(GrepMatch(path, n, Strip(text)))
    ensures workdir != [] && Lacks(workdir, ':') && !Contains("/" + path, workdir) ==>
              ParseGrepLine(workdir + "/" + path + ":" + IntToDecimal(n) + ":" + text, workdir) == Some(GrepMatch(path, n, Strip(text)))
  {
    if !Contains(path, workdir) {
      CleanPlainPath(path, workdir);
      GrepLineOf(path, n, text, workdir);
    }
    if workdir != [] && Lacks(workdir, ':') && !Contains("/" + path, workdir) {
      GrepFoundLine(path, n, text, workdir);
    }
  }

  /** A line grep prints for a file `<workdir>/<path>` is read back with the path relative to the workspace. */
  lemma GrepFoundLine(path: string, n: int, text: string, workdir: string)
    requires Lacks(path, ':') && (path == [] || path[0] != '/')
    requires workdir != [] && Lacks(workdir, ':') && !Contains("/" + path, workdir)
    ensures ParseGrepLine(workdir + "/" + path + ":" + IntToDecimal(n) + ":" + text, workdir) == Some(GrepMatch(path, n, Strip(text)))
  {
    var full := workdir + "/" + path;
    JoinLacks(workdir, path, ':');
    CleanFoundPath(workdir, path);
    GrepLineOf(full, n, text, workdir);
  }

  /** Joining two texts without `c` by `/` gives a text without `c`, for any `c` other than `/`. */
  lemma JoinLacks(workdir: string, path: string, c: char)
    requires Lacks(workdir, c) && Lacks(path, c) && c != '/'
    ensures Lacks(workdir + "/" + path, c)
  {
    var full := workdir + "/" + path;
    forall j | 0 <= j < |full| ensures full[j] != c {
      if j < |workdir| { assert full[j] == workdir[j]; }
      else if j > |workdir| { assert full[j] == path[j - |workdir| - 1]; }
    }
  }

  /** A line `path:n:text` parses into the cleaned path, the number and the stripped text. */
  lemma GrepLineOf(path: string, n: int, text: string, workdir: string)
    requires Lacks(path, ':')
    ensures ParseGrepLine(path + ":" + IntToDecimal(n) + ":" + text, workdir) == Some(GrepMatch(CleanPath(path, workdir), n, Strip(text)))
  {
    var d := IntToDecimal(n);
    var line := path + ":" + d + ":" + text;
    GrepLineFields(path, n, text);
    var parts := SplitMax(line, ':', 2);
    assert parts == [path, d, text];
    assert ParseInt(parts[1]) == Some(n) by {
      DecimalRoundTrip(n);
    }
    GrepLineParsed(line, workdir);
  }

  /** A line whose line-number field is not an int is skipped, as the `ValueError` of `int()` is. */
  lemma GrepLineNeedsInt(line: string, workdir: string)
    requires |SplitMax(line, ':', 2)| == 3 && ParseInt(SplitMax(line, ':', 2)[1]).None?
    ensures ParseGrepLine(line, workdir).None?
  {
  }

  /** A non-blank line with a `:` whose three fields have an int in the middle parses. */
  lemma GrepLineParsed(line: string, workdir: string)
    requires Find(line, ':') < |line| && Strip(line) != []
    requires |SplitMax(line, ':', 2)| == 3 && ParseInt(SplitMax(line, ':', 2)[1]).Some?
    ensures var parts := SplitMax(line, ':', 2);
      ParseGrepLine(line, workdir) == Some(GrepMatch(CleanPath(parts[0], workdir), ParseInt(parts[1]).value, Strip(parts[2])))
  {
  }

  /** The fields of `path:n:text` at the first two `:`. */
  lemma GrepLineFields(path: string, n: int, text: string)
    requires Lacks(path, ':')
    ensures var line := path + ":" + IntToDecimal(n) + ":" + text;
      && Find(line, ':') < |line| && Strip(line) != []
      && SplitMax(line, ':', 2) == [path, IntToDecimal(n), text]
  {
    var d := IntToDecimal(n);
    var line := path + ":" + d + ":" + text;
    assert line == path + [':'] + (d + [':'] + text);
    DecimalLacks(n, ':');
    ThreeFields(path, d, text);
    assert line[|path|] == ':';
    ColonLine(line, |path|);
  }

  /** Two `:` after fields without one split off the first two fields. */
  lemma ThreeFields(a: string, b: string, c: string)
    requires Lacks(a, ':') && Lacks(b, ':')
    ensures SplitMax(a + [':'] + (b + [':'] + c), ':', 2) == [a, b, c]
  {
    SplitStep(a, b + [':'] + c, ':', 2);
    SplitStep(b, c, ':', 1);
    assert SplitMax(c, ':', 0) == [c];
  }

  /** A line with a `:` is neither without one nor blank. */
  lemma ColonLine(line: string, i: nat)
    requires i < |line| && line[i] == ':'
    ensures Find(line, ':') < |line| && Strip(line) != []
  {
    FindAtMost(line, ':', i);
    NotBlank(line, i);
  }

  /** A line with fewer than two `:` is skipped. */
  lemma GrepLineNeedsTwoColons(a: string, b: string, workdir: string)
    requires Lacks(a, ':') && Lacks(b, ':')
    ensures ParseGrepLine(a, workdir).None?
    ensures ParseGrepLine(a + ":" + b, workdir).None?
  {
    var line := a + ":" + b;
    assert line == a + [':'] + b;
    SplitJoin([a, b], ':');
    assert Join([a, b], ':') == line;
    assert SplitMax(line, ':', -1) == [a, b];
    SplitBounded(line, ':');
  }

  /** With no more than one separator, a limit of two splits changes nothing. */
  lemma SplitBounded(s: string, sep: char)
    requires |SplitMax(s, sep, -1)| <= 2
    ensures SplitMax(s, sep, 2) == SplitMax(s, sep, -1)
  {
    var i := Find(s, sep);
    if i < |s| {
      var t := s[i + 1..];
      var j := Find(t, sep);
      assert |SplitMax(t, sep, -1)| <= 1;
      assert j == |t|;
    }
  }

  // ---------------------------------------------------------------------------
  // find
  // ---------------------------------------------------------------------------

  /** Non-blank lines, stripped and cleaned, in order. */
  function CleanLines(lines: seq<string>, workdir: string): seq<string> {
    if lines == [] then []
    else if Strip(lines[0]) == [] then CleanLines(lines[1..], workdir)
    else [CleanPath(Strip(lines[0]), workdir)] + CleanLines(lines[1..], workdir)
  }

  /** There are no more cleaned paths than lines, and none of them is absolute. */
  lemma {:induction false} CleanLinesRelative(lines: seq<string>, workdir: string)
    ensures var r := CleanLines(lines, workdir);
      |r| <= |lines| && forall p :: p in r ==> p == [] || p[0] != '/'
  {
    if lines != [] {
      var rest := CleanLines(lines[1..], workdir);
      CleanLinesRelative(lines[1..], workdir);
      var head := Strip(lines[0]);
      if head == [] {
        assert CleanLines(lines, workdir) == rest;
      } else {
        assert CleanLines(lines, workdir) == [CleanPath(head, workdir)] + rest;
      }
    }
  }

  /** `search_files`' result: the cleaned non-blank lines of the output, at most 50. */
  function CleanFindOutput(output: string, workdir: string): (r: seq<string>)
    ensures |r| <= 50
  {
    Take(CleanLines(SplitMax(output, '\n', -1), workdir), 50)
  }

  /** The lines `find` prints for paths relative to the workspace, each ending in a newline. */
  function FindLines(workdir: string, rels: seq<string>): (r: seq<string>)
    ensures |r| == |rels| && forall k :: 0 <= k < |rels| ==> r[k] == workdir + "/" + rels[k]
  {
    if rels == [] then [] else [workdir + "/" + rels[0]] + FindLines(workdir, rels[1..])
  }

  /** A relative path `find` can print: one line, trimmed, not absolute, not naming the workspace again. */
  predicate PlainRelative(rel: string, workdir: string) {
    && rel != [] && rel[0] != '/' && NoSpaceAtEnds(rel) && Lacks(rel, '\n')
    && !Contains("/" + rel, workdir)
  }

  /**
   * The newline-terminated output `find` prints for files under the
   * workspace is cleaned back to their relative paths (the first 50).
   */
  lemma FindOutputCleaned(workdir: string, rels: seq<string>)
    requires workdir != [] && !IsSpace(workdir[0]) && Lacks(workdir, '\n')
    requires forall k :: 0 <= k < |rels| ==> PlainRelative(rels[k], workdir)
    ensures CleanFindOutput(Join(FindLines(workdir, rels) + [""], '\n'), workdir) == Take(rels, 50)
  {
    var lines := FindLines(workdir, rels) + [""];
    forall k | 0 <= k < |lines| ensures Lacks(lines[k], '\n') {
      if k < |rels| {
        FoundLineLacks(workdir, rels[k]);
      }
    }
    SplitJoin(lines, '\n');
    CleanFound(workdir, rels);
  }

  /** A line `find` prints is one line. */
  lemma FoundLineLacks(workdir: string, rel: string)
    requires Lacks(workdir, '\n') && Lacks(rel, '\n')
    ensures Lacks(workdir + "/" + rel, '\n')
  {
    var l := workdir + "/" + rel;
    forall j | 0 <= j < |l| ensures l[j] != '\n' {
      if j < |workdir| { assert l[j] == workdir[j]; }
      else if j > |workdir| { assert l[j] == rel[j - |workdir| - 1]; }
    }
  }

  lemma {:induction false} CleanFound(workdir: string, rels: seq<string>)
    requires workdir != [] && !IsSpace(workdir[0])
    requires forall k :: 0 <= k < |rels| ==> PlainRelative(rels[k], workdir)
    ensures CleanLines(FindLines(workdir, rels) + [""], workdir) == rels
  {
    if rels == [] {
      assert FindLines(workdir, rels) + [""] == [""] + [];
      CleanLinesCons("", [], workdir);
    } else {
      var l, rest := workdir + "/" + rels[0], FindLines(workdir, rels[1..]) + [""];
      FindLinesCons(workdir, rels);
      CleanLinesCons(l, rest, workdir);
      FoundLineTrimmed(workdir, rels[0]);
      CleanFoundPath(workdir, rels[0]);
      CleanFound(workdir, rels[1..]);
      assert CleanLines([l] + rest, workdir) == [rels[0]] + rels[1..];
      assert rels == [rels[0]] + rels[1..];
    }
  }

  lemma FindLinesCons(workdir: string, rels: seq<string>)
    requires rels != []
    ensures FindLines(workdir, rels) + [""] == [workdir + "/" + rels[0]] + (FindLines(workdir, rels[1..]) + [""])
  {
  }

  /** One line of output through the cleaning of `search_files`. */
  lemma CleanLinesCons(line: string, lines: seq<string>, workdir: string)
    ensures CleanLines([line] + lines, workdir) ==
      if Strip(line) == [] then CleanLines(lines, workdir) else [CleanPath(Strip(line), workdir)] + CleanLines(lines, workdir)
  {
    assert ([line] + lines)[1..] == lines;
  }

  /** A line `find` prints for a trimmed relative path has nothing to strip. */
  lemma FoundLineTrimmed(workdir: string, rel: string)
    requires workdir != [] && !IsSpace(workdir[0])
    requires rel != [] && NoSpaceAtEnds(rel)
    ensures Strip(workdir + "/" + rel) == workdir + "/" + rel
  {
    var l := workdir + "/" + rel;
    assert l[0] == workdir[0] && l[|l| - 1] == rel[|rel| - 1];
  }
}
