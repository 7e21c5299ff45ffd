/**
 * `analyze_error`: match an error text, lower-cased, against seven known
 * phrases, each with its suggestion, and classify it by the first of
 * `error:`, `exception`, `warning` it contains.
 */
module ErrorAnalysis {
  import opened PyText

  /** The phrases looked for, in order, with the suggestion each one adds. */
  const Patterns: seq<(string, string)> := [
    ("permission denied", "Try using sudo or check file permissions with ls -la"),
    ("command not found", "Install the missing package or check if it's in PATH"),
    ("connection refused", "Check if the service is running and the port is correct"),
    ("no such file or directory", "Verify the file path exists and check for typos"),
    ("port already in use", "Use a different port or stop the conflicting process"),
    ("module not found", "Install the Python package with pip install"),
    ("npm err", "Try npm install or check package.json for issues")
  ]

  const Fallback := "Check logs and documentation for more details"

  datatype Analysis = Analysis(errorType: string, suggestions: seq<string>)

  datatype Report = Report(analysis: Analysis, originalError: string)

  /** The suggestions of the phrases `text` contains, in table order. */
  function Matched(patterns: seq<(string, string)>, text: string): (r: seq<string>)
    ensures |r| <= |patterns|
    ensures r == [] <==> forall i :: 0 <= i < |patterns| ==> !Contains(text, patterns[i].0)
    ensures forall s :: s in r ==> exists i :: 0 <= i < |patterns| && patterns[i].1 == s && Contains(text, patterns[i].0)
  {
    if patterns == [] then []
    else
      var rest := Matched(patterns[1..], text);
      assert forall i :: 0 <= i < |patterns| - 1 ==> patterns[1..][i] == patterns[i + 1];
      if Contains(text, patterns[0].0) then [patterns[0].1] + rest else rest
  }

  /** The suggestions of two tables in a row are those of the first followed by those of the second: table order is kept. */
  lemma {:induction false} MatchedAppend(p: seq<(string, string)>, q: seq<(string, string)>, text: string)
    ensures Matched(p + q, text) == Matched(p, text) + Matched(q, text)
  {
    if p == [] {
      assert p + q == q;
    } else {
      assert (p + q)[0] == p[0] && (p + q)[1..] == p[1..] + q;
      MatchedAppend(p[1..], q, text);
    }
  }

  /** One phrase adds its suggestion exactly once when the text contains it, and nothing otherwise. */
  lemma MatchedOne(pattern: (string, string), text: string)
    ensures Matched([pattern], text) == if Contains(text, pattern.0) then [pattern.1] else []
  {
    assert [pattern][1..] == [];
  }

  /** The error type, by priority `error:` > `exception` > `warning` > unknown. */
  function ErrorType(lower: string): (t: string)
    ensures t == "runtime_error" <==> Contains(lower, "error:")
    ensures t == "exception" <==> !Contains(lower, "error:") && Contains(lower, "exception")
    ensures t == "warning" <==> !Contains(lower, "error:") && !Contains(lower, "exception") && Contains(lower, "warning")
    ensures t == "unknown" <==> !Contains(lower, "error:") && !Contains(lower, "exception") && !Contains(lower, "warning")
  {
    if Contains(lower, "error:") then "runtime_error"
    else if Contains(lower, "exception") then "exception"
    else if Contains(lower, "warning") then "warning"
    else "unknown"
  }

  /**
   * `analyze_error(error_text, context)`: the matched suggestions, or the
   * fallback when none matched, so never none; `context` is not used.
   */
  function AnalyzeError(errorText: string, context: string): (r: Report)
    ensures r.originalError == errorText
    ensures r.analysis.suggestions != []
    ensures r.analysis.suggestions == [Fallback] <==> forall i :: 0 <= i < |Patterns| ==> !Contains(Lower(errorText), Patterns[i].0)
    ensures r.analysis.errorType == ErrorType(Lower(errorText))
  {
    var lower := Lower(errorText);
    var found := Matched(Patterns, lower);
    FallbackNotAPattern(lower);
    Report(Analysis(ErrorType(lower), if found == [] then [Fallback] else found), errorText)
  }

  /** The fallback is not one of the table's suggestions, so it only appears alone. */
  lemma FallbackNotAPattern(text: string)
    ensures Matched(Patterns, text) != [Fallback]
  {
    forall i | 0 <= i < |Patterns| ensures Patterns[i].1 != Fallback {
      assert |Patterns[i].1| != |Fallback|;
    }
    assert Fallback !in Matched(Patterns, text);
  }

  /** The analysis depends only on the lower-cased text. */
  lemma CaseInsensitive(errorText: string, context: string)
    ensures AnalyzeError(Lower(errorText), context).analysis == AnalyzeError(errorText, context).analysis
  {
    LowerIdempotent(errorText);
  }

  /** A text naming a refused connection gets that suggestion, whatever its case. */
  lemma ConnectionRefusedSuggested(before: string, after: string)
    ensures "Check if the service is running and the port is correct"
            in AnalyzeError(before + "Connection Refused" + after, "").analysis.suggestions
  {
    var t := before + "Connection Refused" + after;
    var lower := Lower(t);
    assert lower[|before|..|before| + 18] == "connection refused";
    ContainsAt(lower, "connection refused", |before|);
    MatchedHas(Patterns, lower, 2);
  }

  lemma {:induction false} MatchedHas(patterns: seq<(string, string)>, text: string, i: nat)
    requires i < |patterns| && Contains(text, patterns[i].0)
    ensures patterns[i].1 in Matched(patterns, text)
  {
    if i > 0 {
      assert patterns[1..][i - 1] == patterns[i];
      MatchedHas(patterns[1..], text, i - 1);
    }
  }
}
