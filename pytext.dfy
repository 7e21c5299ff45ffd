/**
 * The Python `str` built-ins the backend's parsers are made of, as functions on
 * `seq<char>`: `isspace`, `strip`/`lstrip`, `lower`, `in`, `split` (with a
 * separator and on whitespace, with and without `maxsplit`), `"sep".join`,
 * `replace(old, "")`, slicing `[:n]`, `int(text)` and `str(int)`.
 */
module PyText {
  import opened Optional

  /** Python's `str.isspace` on one character (the full set of characters it accepts). */
  predicate IsSpace(c: char) {
    || ('\t' <= c <= '\r')
    || ('\U{1C}' <= c <= ' ')
    || c == '\U{85}' || c == '\U{A0}' || c == '\U{1680}'
    || ('\U{2000}' <= c <= '\U{200A}')
    || c == '\U{2028}' || c == '\U{2029}' || c == '\U{202F}' || c == '\U{205F}' || c == '\U{3000}'
  }

  predicate IsDigit(c: char) {
    '0' <= c <= '9'
  }

  predicate NoSpaceIn(s: string) {
    forall i :: 0 <= i < |s| ==> !IsSpace(s[i])
  }

  predicate AllSpace(s: string) {
    forall i :: 0 <= i < |s| ==> IsSpace(s[i])
  }

  predicate NoSpaceAtEnds(s: string) {
    s == [] || (!IsSpace(s[0]) && !IsSpace(s[|s| - 1]))
  }

  // ---------------------------------------------------------------------------
  // strip
  // ---------------------------------------------------------------------------

  /** `s.lstrip()`: the suffix left after dropping leading whitespace. */
  function LStrip(s: string): (r: string)
    ensures |r| <= |s| && r == s[|s| - |r|..]
    ensures forall i :: 0 <= i < |s| - |r| ==> IsSpace(s[i])
    ensures r == [] || !IsSpace(r[0])
  {
    if s != [] && IsSpace(s[0]) then
      var r := LStrip(s[1..]);
      assert forall i :: 1 <= i < |s| ==> s[i] == s[1..][i - 1];
      r
    else
      s
  }

  /** `s.rstrip()`: the prefix left after dropping trailing whitespace. */
  function RStrip(s: string): (r: string)
    ensures |r| <= |s| && r == s[..|r|]
    ensures forall i :: |r| <= i < |s| ==> IsSpace(s[i])
    ensures r == [] || !IsSpace(r[|r| - 1])
  {
    if s != [] && IsSpace(s[|s| - 1]) then
      var r := RStrip(s[..|s| - 1]);
      r
    else
      s
  }

  /** `s.strip()`: `s` without whitespace at either end; a string already trimmed is its own strip. */
  function Strip(s: string): (r: string)
    ensures |r| <= |s|
    ensures NoSpaceAtEnds(r)
    ensures r == [] <==> AllSpace(s)
    ensures NoSpaceAtEnds(s) ==> r == s
  {
    var l := LStrip(s);
    RStrip(l)
  }

  /** `s.lstrip(c)` for one character `c` (the backend uses `lstrip("/")`). */
  function LStripChar(s: string, c: char): (r: string)
    ensures |r| <= |s| && r == s[|s| - |r|..]
    ensures forall i :: 0 <= i < |s| - |r| ==> s[i] == c
    ensures r == [] || r[0] != c
  {
    if s != [] && s[0] == c then LStripChar(s[1..], c) else s
  }

  // ---------------------------------------------------------------------------
  // lower, in, startswith
  // ---------------------------------------------------------------------------

  function LowerChar(c: char): char {
    if 'A' <= c <= 'Z' then (c as int + 32) as char else c
  }

  /** `s.lower()` on ASCII letters; every other character is kept. */
  function Lower(s: string): (r: string)
    ensures |r| == |s|
    ensures forall i :: 0 <= i < |s| ==> r[i] == LowerChar(s[i])
  {
    seq(|s|, i requires 0 <= i < |s| => LowerChar(s[i]))
  }

  lemma LowerIdempotent(s: string)
    ensures Lower(Lower(s)) == Lower(s)
  {
    assert forall i :: 0 <= i < |s| ==> LowerChar(LowerChar(s[i])) == LowerChar(s[i]);
  }

  predicate StartsWith(s: string, p: string) {
    |p| <= |s| && s[..|p|] == p
  }

  /** Python's `sub in s`. */
  predicate Contains(s: string, sub: string)
    decreases |s|
  {
    StartsWith(s, sub) || (s != [] && Contains(s[1..], sub))
  }

  /** `sub in s` holds exactly when `sub` sits at some position of `s`. */
  lemma {:induction false} ContainsAt(s: string, sub: string, k: nat)
    requires k + |sub| <= |s|
    ensures Contains(s, sub) <== s[k..k + |sub|] == sub
    decreases k
  {
    if s[k..k + |sub|] == sub && k > 0 {
      assert s[1..][k - 1..k - 1 + |sub|] == s[k..k + |sub|];
      ContainsAt(s[1..], sub, k - 1);
    }
  }

  // ---------------------------------------------------------------------------
  // split with a separator, join
  // ---------------------------------------------------------------------------

  /** `s` has no occurrence of `c` (Python's `c not in s`). */
  predicate Lacks(s: string, c: char) {
    forall j :: 0 <= j < |s| ==> s[j] != c
  }

  /** Position of the first `c` in `s`, or `|s|` when there is none. */
  function Find(s: string, c: char): (i: nat)
    ensures i <= |s| && (i < |s| ==> s[i] == c)
    ensures Lacks(s[..i], c)
  {
    if s == [] || s[0] == c then 0
    else
      var i := 1 + Find(s[1..], c);
      assert s[..i] == [s[0]] + s[1..][..i - 1];
      i
  }

  /** `sep.join(parts)` for a one-character separator. */
  function Join(parts: seq<string>, sep: char): string {
    if |parts| == 0 then ""
    else if |parts| == 1 then parts[0]
    else parts[0] + [sep] + Join(parts[1..], sep)
  }

  /**
   * `s.split(sep, maxsplit)` for a one-character separator; a negative
   * `maxsplit` is Python's default (no limit).  There are at most
   * `maxsplit + 1` pieces, and only the last may still contain `sep`, and only
   * when the limit was reached; `JoinSplit` and `SplitJoin` relate it to `Join`.
   */
  function SplitMax(s: string, sep: char, maxsplit: int): (r: seq<string>)
    ensures |r| >= 1
    ensures maxsplit >= 0 ==> |r| <= maxsplit + 1
    decreases |s|
  {
    var i := Find(s, sep);
    if maxsplit == 0 || i == |s| then
      [s]
    else
      [s[..i]] + SplitMax(s[i + 1..], sep, if maxsplit < 0 then maxsplit else maxsplit - 1)
  }

  /**
   * No piece of a split holds the separator, except the last one once the
   * limit (when `maxsplit >= 0`) is reached.
   */
  predicate PiecesLack(r: seq<string>, sep: char, maxsplit: int) {
    && r != []
    && (forall w :: w in r[..|r| - 1] ==> Lacks(w, sep))
    && (maxsplit < 0 || |r| <= maxsplit ==> Lacks(Last(r), sep))
  }

  lemma {:induction false} SplitPieces(s: string, sep: char, maxsplit: int)
    ensures PiecesLack(SplitMax(s, sep, maxsplit), sep, maxsplit)
    decreases |s|
  {
    var i := Find(s, sep);
    if maxsplit == 0 || i == |s| {
      assert i == |s| ==> s[..i] == s;
      assert SplitMax(s, sep, maxsplit) == [s];
    } else {
      var next := if maxsplit < 0 then maxsplit else maxsplit - 1;
      var a, b := s[..i], s[i + 1..];
      assert s == a + [sep] + b;
      SplitStep(a, b, sep, maxsplit);
      SplitPieces(b, sep, next);
      PiecesLackCons(a, SplitMax(b, sep, next), sep, maxsplit);
    }
  }

  lemma PiecesLackCons(a: string, rest: seq<string>, sep: char, maxsplit: int)
    requires Lacks(a, sep) && maxsplit != 0
    requires PiecesLack(rest, sep, if maxsplit < 0 then maxsplit else maxsplit - 1)
    ensures PiecesLack([a] + rest, sep, maxsplit)
  {
    var r := [a] + rest;
    assert r[..|r| - 1] == [a] + rest[..|rest| - 1];
    assert Last(r) == Last(rest);
  }

  function Last<T>(xs: seq<T>): T
    requires xs != []
  {
    xs[|xs| - 1]
  }

  /** `Find` stops at a `c` with none before it. */
  lemma FindFirst(s: string, c: char, i: nat)
    requires i < |s| && s[i] == c && Lacks(s[..i], c)
    ensures Find(s, c) == i
  {
    var j := Find(s, c);
    assert forall k :: 0 <= k < i ==> s[k] != c by {
      forall k | 0 <= k < i ensures s[k] != c { assert s[..i][k] == s[k]; }
    }
    assert forall k :: 0 <= k < j ==> s[k] != c by {
      forall k | 0 <= k < j ensures s[k] != c { assert s[..j][k] == s[k]; }
    }
  }

  /** `Find` stops at the latest at any occurrence of `c`. */
  lemma {:induction false} FindAtMost(s: string, c: char, i: nat)
    requires i < |s| && s[i] == c
    ensures Find(s, c) <= i
  {
    if s[0] != c {
      assert s[1..][i - 1] == c;
      FindAtMost(s[1..], c, i - 1);
    }
  }

  /** A string with a non-space character somewhere does not strip to nothing. */
  lemma NotBlank(s: string, i: nat)
    requires i < |s| && !IsSpace(s[i])
    ensures Strip(s) != []
  {
    assert !AllSpace(s);
  }

  /** Splitting `a + [sep] + b`, with no `sep` in `a`, yields `a` and then the split of `b`. */
  lemma SplitStep(a: string, b: string, sep: char, maxsplit: int)
    requires Lacks(a, sep) && maxsplit != 0
    ensures SplitMax(a + [sep] + b, sep, maxsplit) == [a] + SplitMax(b, sep, if maxsplit < 0 then maxsplit else maxsplit - 1)
  {
    var s := a + [sep] + b;
    assert s[..|a|] == a && s[|a| + 1..] == b;
    FindFirst(s, sep, |a|);
  }

  /** Joining the pieces of a split gives back the string. */
  lemma {:induction false} JoinSplit(s: string, sep: char, maxsplit: int)
    ensures Join(SplitMax(s, sep, maxsplit), sep) == s
    decreases |s|
  {
    var i := Find(s, sep);
    if maxsplit != 0 && i < |s| {
      var next := if maxsplit < 0 then maxsplit else maxsplit - 1;
      var a, b := s[..i], s[i + 1..];
      assert s == a + [sep] + b;
      SplitStep(a, b, sep, maxsplit);
      JoinSplit(b, sep, next);
      JoinCons(a, SplitMax(b, sep, next), sep);
    }
  }

  lemma JoinCons(a: string, rest: seq<string>, sep: char)
    requires rest != []
    ensures Join([a] + rest, sep) == a + [sep] + Join(rest, sep)
  {
    assert ([a] + rest)[1..] == rest;
  }

  /** Splitting undoes joining pieces that do not contain the separator. */
  lemma {:induction false} SplitJoin(parts: seq<string>, sep: char)
    requires |parts| >= 1
    requires forall k :: 0 <= k < |parts| ==> Lacks(parts[k], sep)
    ensures SplitMax(Join(parts, sep), sep, -1) == parts
    decreases |parts|
  {
    if |parts| > 1 {
      var rest := parts[1..];
      assert parts == [parts[0]] + rest;
      JoinCons(parts[0], rest, sep);
      SplitStep(parts[0], Join(rest, sep), sep, -1);
      SplitJoin(rest, sep);
    } else {
      SplitWhole(parts[0], sep);
    }
  }

  /** A string without the separator splits into itself. */
  lemma SplitWhole(s: string, sep: char)
    requires Lacks(s, sep)
    ensures SplitMax(s, sep, -1) == [s]
  {
    var i := Find(s, sep);
    assert i == |s|;
  }

  /** The last piece of an unlimited split is what follows the last separator. */
  lemma {:induction false} SplitLastPiece(a: string, b: string, sep: char)
    requires Lacks(b, sep)
    ensures Last(SplitMax(a + [sep] + b, sep, -1)) == b
    decreases |a|
  {
    var i := Find(a, sep);
    if i == |a| {
      assert a[..i] == a;
      SplitStep(a, b, sep, -1);
      SplitWhole(b, sep);
    } else {
      var a' := a[i + 1..];
      var tail := a' + [sep] + b;
      Regroup(a, i, sep, b);
      SplitStep(a[..i], tail, sep, -1);
      SplitLastPiece(a', b, sep);
      LastCons(a[..i], SplitMax(tail, sep, -1));
    }
  }

  /** `a + [sep] + b` regrouped around a separator at position `i` of `a`. */
  lemma Regroup(a: string, i: nat, sep: char, b: string)
    requires i < |a| && a[i] == sep
    ensures a + [sep] + b == a[..i] + [sep] + (a[i + 1..] + [sep] + b)
  {
    assert a == a[..i] + [sep] + a[i + 1..];
  }

  lemma LastCons<T>(x: T, xs: seq<T>)
    requires xs != []
    ensures Last([x] + xs) == Last(xs)
  {
  }

  // ---------------------------------------------------------------------------
  // split on whitespace
  // ---------------------------------------------------------------------------

  /** Length of the leading run of non-whitespace characters. */
  function WordLength(s: string): (n: nat)
    ensures n <= |s| && NoSpaceIn(s[..n]) && (n < |s| ==> IsSpace(s[n]))
  {
    if s == [] || IsSpace(s[0]) then 0
    else
      var n := 1 + WordLength(s[1..]);
      assert s[..n] == [s[0]] + s[1..][..n - 1];
      n
  }

  /**
   * `s.split(None, maxsplit)`; a negative `maxsplit` means no limit.  Every
   * piece is non-empty and starts with a non-space; without a limit no piece
   * contains whitespace; there are no pieces exactly when `s` is all whitespace.
   */
  function SplitWs(s: string, maxsplit: int): (r: seq<string>)
    ensures r == [] <==> AllSpace(s)
    ensures maxsplit >= 0 ==> |r| <= maxsplit + 1
    ensures forall w :: w in r ==> w != [] && !IsSpace(w[0])
    ensures maxsplit < 0 ==> forall w :: w in r ==> NoSpaceIn(w)
    decreases |s|, 1
  {
    var t := LStrip(s);
    assert t == [] <==> AllSpace(s) by {
      if t == [] { assert s[..|s|] == s; } else { assert s[|s| - |t|] == t[0]; }
    }
    SplitFields(t, maxsplit)
  }

  /** `SplitWs` once leading whitespace is gone. */
  function SplitFields(t: string, maxsplit: int): (r: seq<string>)
    requires t == [] || !IsSpace(t[0])
    ensures r == [] <==> t == []
    ensures maxsplit >= 0 ==> |r| <= maxsplit + 1
    ensures forall w :: w in r ==> w != [] && !IsSpace(w[0])
    ensures maxsplit < 0 ==> forall w :: w in r ==> NoSpaceIn(w)
    decreases |t|, 0
  {
    if t == [] then []
    else if maxsplit == 0 then [t]
    else
      var n := WordLength(t);
      var word := t[..n];
      assert word != [] && word[0] == t[0];
      [word] + SplitWs(t[n..], if maxsplit < 0 then maxsplit else maxsplit - 1)
  }

  /** Leading and trailing whitespace around a trimmed string is what `strip` removes. */
  lemma StripPadded(pre: string, x: string, post: string)
    requires AllSpace(pre) && AllSpace(post) && x != [] && NoSpaceAtEnds(x)
    ensures Strip(pre + x + post) == x
  {
    var s := pre + (x + post);
    assert pre + x + post == s;
    LStripPrefix(pre, x + post);
    RStripSuffix(x, post);
    assert Strip(s) == RStrip(LStrip(s));
  }

  lemma {:induction false} LStripPrefix(pre: string, t: string)
    requires AllSpace(pre) && t != [] && !IsSpace(t[0])
    ensures LStrip(pre + t) == t
  {
    if pre != [] {
      assert (pre + t)[1..] == pre[1..] + t;
      LStripPrefix(pre[1..], t);
    }
  }

  lemma {:induction false} RStripSuffix(t: string, post: string)
    requires AllSpace(post) && t != [] && !IsSpace(t[|t| - 1])
    ensures RStrip(t + post) == t
  {
    if post != [] {
      var p := post[..|post| - 1];
      assert (t + post)[..|t + post| - 1] == t + p;
      RStripSuffix(t, p);
    } else {
      assert t + post == t;
    }
  }

  /** The first word of `w` followed by whitespace is `w`. */
  lemma {:induction false} WordLengthOf(w: string, rest: string)
    requires NoSpaceIn(w) && (rest == [] || IsSpace(rest[0]))
    ensures WordLength(w + rest) == |w|
  {
    if w != [] {
      assert (w + rest)[1..] == w[1..] + rest;
      WordLengthOf(w[1..], rest);
    }
  }

  /** A word and a space split off first: `(w + " " + rest).split(None, k)` for `k != 0`. */
  lemma SplitWsWord(w: string, rest: string, k: int)
    requires w != [] && NoSpaceIn(w) && k != 0
    ensures SplitWs(w + [' '] + rest, k) == [w] + SplitWs(rest, if k < 0 then k else k - 1)
  {
    var t := w + [' '] + rest;
    var k' := if k < 0 then k else k - 1;
    assert LStrip(t) == t by {
      LStripPrefix([], t);
      assert [] + t == t;
    }
    assert WordLength(t) == |w| by {
      WordLengthOf(w, [' '] + rest);
      assert t == w + ([' '] + rest);
    }
    assert t[..|w|] == w && t[|w|..] == [' '] + rest;
    assert SplitFields(t, k) == [w] + SplitWs([' '] + rest, k');
    assert LStrip([' '] + rest) == LStrip(rest) by {
      assert ([' '] + rest)[1..] == rest;
    }
    assert SplitWs([' '] + rest, k') == SplitFields(LStrip(rest), k');
  }

  /** A single word splits into itself, whatever the limit. */
  lemma SplitWsLone(w: string, k: int)
    requires w != [] && NoSpaceIn(w)
    ensures SplitWs(w, k) == [w]
  {
    LStripPrefix([], w);
    assert [] + w == w;
    if k != 0 {
      WordLengthOf(w, []);
      assert w + [] == w;
      assert w[|w|..] == [];
    }
  }

  /** With no split left, the rest of the text is one piece. */
  lemma SplitWsWhole(t: string)
    requires t != [] && !IsSpace(t[0])
    ensures SplitWs(t, 0) == [t]
  {
    LStripPrefix([], t);
    assert [] + t == t;
  }

  // ---------------------------------------------------------------------------
  // replace(old, ""), replace of one character, [:n]
  // ---------------------------------------------------------------------------

  /**
   * `s.replace(pat, "")`: occurrences of `pat` removed left to right, without
   * overlap.  Python leaves `s` as it is when `pat` is empty, and so when `pat`
   * does not occur in it.
   */
  function RemoveAll(s: string, pat: string): (r: string)
    ensures |r| <= |s|
    ensures !Contains(s, pat) ==> r == s
    decreases |s|
  {
    if pat == [] || |s| < |pat| then s
    else if s[..|pat|] == pat then RemoveAll(s[|pat|..], pat)
    else [s[0]] + RemoveAll(s[1..], pat)
  }

  /** `s.replace(a, b)` for single characters. */
  function ReplaceChar(s: string, a: char, b: char): (r: string)
    ensures |r| == |s|
    ensures forall i :: 0 <= i < |s| ==> r[i] == if s[i] == a then b else s[i]
  {
    if s == [] then [] else [if s[0] == a then b else s[0]] + ReplaceChar(s[1..], a, b)
  }

  /** Python's slice `xs[:n]`. */
  function Take<T>(xs: seq<T>, n: nat): (r: seq<T>)
    ensures |r| == if |xs| <= n then |xs| else n
    ensures |r| <= n && r == xs[..|r|]
  {
    if |xs| <= n then xs else xs[..n]
  }

  // ---------------------------------------------------------------------------
  // str(int) and int(str)
  // ---------------------------------------------------------------------------

  function DigitChar(d: nat): (c: char)
    requires d < 10
    ensures IsDigit(c)
  {
    ('0' as int + d) as char
  }

  function DigitValue(c: char): nat
    requires IsDigit(c)
  {
    c as int - '0' as int
  }

  predicate AllDigits(s: string) {
    forall i :: 0 <= i < |s| ==> IsDigit(s[i])
  }

  /** Decimal digits of a natural number, most significant first, no leading zero. */
  function NatToDecimal(n: nat): (r: string)
    ensures r != [] && AllDigits(r)
    decreases n
  {
    if n < 10 then [DigitChar(n)] else NatToDecimal(n / 10) + [DigitChar(n % 10)]
  }

  /** `str(n)` / `f"{n}"` for a Python int. */
  function IntToDecimal(n: int): (r: string)
    ensures r != [] && NoSpaceAtEnds(r)
  {
    if n < 0 then "-" + NatToDecimal(-n) else NatToDecimal(n)
  }

  /** The value of a string of decimal digits. */
  function DigitsValue(s: string): nat
    requires AllDigits(s)
  {
    if s == [] then 0 else DigitsValue(s[..|s| - 1]) * 10 + DigitValue(s[|s| - 1])
  }

  lemma {:induction false} DigitsOfNat(n: nat)
    ensures DigitsValue(NatToDecimal(n)) == n
    decreases n
  {
    if n >= 10 {
      var s := NatToDecimal(n);
      assert s[..|s| - 1] == NatToDecimal(n / 10);
      DigitsOfNat(n / 10);
    }
  }

  /**
   * The digit syntax Python's `int()` accepts after the sign: digits, where
   * single underscores may separate two digits.
   */
  predicate IsDigitGroups(s: string) {
    && s != []
    && IsDigit(s[0]) && IsDigit(s[|s| - 1])
    && (forall i :: 0 <= i < |s| ==> IsDigit(s[i]) || s[i] == '_')
    && (forall i :: 0 <= i < |s| - 1 ==> s[i] == '_' ==> s[i + 1] != '_')
  }

  function WithoutUnderscores(s: string): (r: string)
    requires forall i :: 0 <= i < |s| ==> IsDigit(s[i]) || s[i] == '_'
    ensures AllDigits(r)
    ensures AllDigits(s) ==> r == s
  {
    if s == [] then [] else (if s[0] == '_' then [] else [s[0]]) + WithoutUnderscores(s[1..])
  }

  /**
   * `int(s)` in base 10: surrounding whitespace, an optional sign, then digit
   * groups; `None` stands for the `ValueError` Python raises otherwise.
   */
  function ParseInt(s: string): Option<int> {
    ParseSigned(Strip(s))
  }

  /** `int()` on text already stripped: an optional `-` or `+`, then the digit groups. */
  function ParseSigned(t: string): Option<int> {
    if t != [] && (t[0] == '-' || t[0] == '+') then
      match ParseUnsigned(t[1..])
      case Some(v) => Some(if t[0] == '-' then -v else v)
      case None => None
    else
      ParseUnsigned(t)
  }

  /** The value of digit groups, or `None` when the text is not digit groups. */
  function ParseUnsigned(body: string): Option<int> {
    if IsDigitGroups(body) then Some(DigitsValue(WithoutUnderscores(body)) as int) else None
  }

  /** `int(str(n)) == n` for every Python int. */
  lemma DecimalRoundTrip(n: int)
    ensures ParseInt(IntToDecimal(n)) == Some(n)
  {
    var t := IntToDecimal(n);
    assert Strip(t) == t;
    if n < 0 {
      NegativeRoundTrip(n);
    } else {
      NonNegativeRoundTrip(n);
    }
  }

  lemma NegativeRoundTrip(n: int)
    requires n < 0
    ensures ParseSigned(IntToDecimal(n)) == Some(n)
  {
    NegativeText(n);
    MinusDigits(IntToDecimal(n), NatToDecimal(-n));
  }

  lemma NegativeText(n: int)
    requires n < 0
    ensures IntToDecimal(n) == "-" + NatToDecimal(-n) && DigitsValue(NatToDecimal(-n)) == -n
  {
    DigitsOfNat(-n);
  }

  lemma NonNegativeRoundTrip(n: int)
    requires n >= 0
    ensures ParseSigned(IntToDecimal(n)) == Some(n)
  {
    DigitsOfNat(n);
    ParseDigits(NatToDecimal(n));
    Unsigned(NatToDecimal(n));
  }

  /** A plain run of digits parses as its value. */
  lemma ParseDigits(d: string)
    requires d != [] && AllDigits(d)
    ensures ParseUnsigned(d) == Some(DigitsValue(d) as int)
  {
    assert IsDigitGroups(d);
    assert WithoutUnderscores(d) == d;
  }

  /** Text without a sign is read as digit groups alone. */
  lemma Unsigned(t: string)
    requires t == [] || (t[0] != '-' && t[0] != '+')
    ensures ParseSigned(t) == ParseUnsigned(t)
  {
  }

  /** A leading minus sign negates the value of what follows it. */
  lemma MinusSign(t: string, v: int)
    requires t != [] && t[0] == '-' && ParseUnsigned(t[1..]) == Some(v)
    ensures ParseSigned(t) == Some(-v)
  {
  }

  /** A minus sign and a run of digits parse as the negated value. */
  lemma MinusDigits(t: string, d: string)
    requires d != [] && AllDigits(d) && t == "-" + d
    ensures ParseSigned(t) == Some(-(DigitsValue(d) as int))
  {
    ParseDigits(d);
    assert t[0] == '-' && t[1..] == d;
    MinusSign(t, DigitsValue(d) as int);
  }

  /** Different ints are printed differently (a consequence of the round trip). */
  lemma DecimalInjective(m: int, n: int)
    requires m != n
    ensures IntToDecimal(m) != IntToDecimal(n)
  {
    DecimalRoundTrip(m);
    DecimalRoundTrip(n);
  }

  /** `str(n)` holds only digits and a leading minus sign, so no other character. */
  lemma DecimalLacks(n: int, c: char)
    requires c != '-' && !IsDigit(c)
    ensures Lacks(IntToDecimal(n), c)
  {
    var d := IntToDecimal(n);
    if n < 0 {
      assert d == "-" + NatToDecimal(-n);
      assert forall i :: 1 <= i < |d| ==> d[i] == NatToDecimal(-n)[i - 1];
    }
  }
}
