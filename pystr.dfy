/**
 * The Python `str` builtins the service relies on, over Dafny strings
 * (sequences of Unicode scalar values, as Python's `str` is):
 * `isspace`/`strip`, `splitlines`, `"sep".join`, `split` on one separator
 * character, `startswith`, and `str()` of an integer.
 */
module PyStr {

  // ---------------------------------------------------------------------
  // Whitespace and line boundaries
  // ---------------------------------------------------------------------

  /** `c.isspace()`: the characters Python treats as whitespace. */
  predicate IsSpace(c: char) {
    c == ' ' || c == '\t' || c == '\n' || c == '\U{B}' || c == '\U{C}' || c == '\r'
    || ('\U{1C}' <= c <= '\U{1F}') || c == '\U{85}' || c == '\U{A0}' || c == '\U{1680}'
    || ('\U{2000}' <= c <= '\U{200A}') || c == '\U{2028}' || c == '\U{2029}'
    || c == '\U{202F}' || c == '\U{205F}' || c == '\U{3000}'
  }

  /** The line boundaries at which `str.splitlines()` splits. */
  predicate IsLineBreak(c: char) {
    c == '\n' || c == '\r' || c == '\U{B}' || c == '\U{C}'
    || ('\U{1C}' <= c <= '\U{1E}') || c == '\U{85}' || c == '\U{2028}' || c == '\U{2029}'
  }

  lemma LineBreakIsSpace(c: char)
    ensures IsLineBreak(c) ==> IsSpace(c)
  {
  }

  predicate NoLineBreaks(s: string) {
    forall i :: 0 <= i < |s| ==> !IsLineBreak(s[i])
  }

  lemma NoLineBreaksConcat(a: string, b: string)
    requires NoLineBreaks(a) && NoLineBreaks(b)
    ensures NoLineBreaks(a + b)
  {
    forall i | 0 <= i < |a + b|
      ensures !IsLineBreak((a + b)[i])
    {
      if i < |a| { assert (a + b)[i] == a[i]; } else { assert (a + b)[i] == b[i - |a|]; }
    }
  }

  /** Every line boundary in `s` is a plain `'\n'`. */
  predicate OnlyNewlineBreaks(s: string) {
    forall i :: 0 <= i < |s| ==> IsLineBreak(s[i]) ==> s[i] == '\n'
  }

  predicate EndsWithNewline(s: string) {
    |s| > 0 && s[|s| - 1] == '\n'
  }

  // ---------------------------------------------------------------------
  // strip()
  // ---------------------------------------------------------------------

  /** `s` without its leading whitespace. */
  function StripLeft(s: string): string {
    if s != [] && IsSpace(s[0]) then StripLeft(s[1..]) else s
  }

  /** `s` without its trailing whitespace. */
  function StripRight(s: string): string {
    if s != [] && IsSpace(s[|s| - 1]) then StripRight(s[..|s| - 1]) else s
  }

  /** `StripLeft` removes a prefix of whitespace, and no more. */
  lemma {:induction false} StripLeftFacts(s: string)
    ensures var r := StripLeft(s);
      && |r| <= |s| && r == s[|s| - |r|..]
      && (r == [] || !IsSpace(r[0]))
      && forall i :: 0 <= i < |s| - |r| ==> IsSpace(s[i])
  {
    if s != [] && IsSpace(s[0]) {
      StripLeftFacts(s[1..]);
      var r := StripLeft(s);
      forall i | 0 <= i < |s| - |r| ensures IsSpace(s[i]) {
        if i > 0 { assert s[i] == s[1..][i - 1]; }
      }
    }
  }

  /** `StripRight` removes a suffix of whitespace, and no more. */
  lemma {:induction false} StripRightFacts(s: string)
    ensures var r := StripRight(s);
      && |r| <= |s| && r == s[..|r|]
      && (r == [] || !IsSpace(r[|r| - 1]))
      && forall i :: |r| <= i < |s| ==> IsSpace(s[i])
  {
    if s != [] && IsSpace(s[|s| - 1]) {
      StripRightFacts(s[..|s| - 1]);
      var r := StripRight(s);
      forall i | |r| <= i < |s| ensures IsSpace(s[i]) {
        if i < |s| - 1 { assert s[i] == s[..|s| - 1][i]; }
      }
    }
  }

  /** `s.strip()`: `s` without its leading and trailing whitespace. */
  function Strip(s: string): (r: string)
  {
    StripRight(StripLeft(s))
  }

  /** A string that `strip()` leaves as it is. */
  predicate IsStripped(s: string) {
    s == [] || (!IsSpace(s[0]) && !IsSpace(s[|s| - 1]))
  }

  lemma StrippedIsFixpoint(s: string)
    ensures Strip(s) == s <==> IsStripped(s)
  {
    StripLeftFacts(s);
    StripRightFacts(StripLeft(s));
    if IsStripped(s) {
      assert StripLeft(s) == s;
      assert StripRight(s) == s;
    } else {
      assert s != [];
      if IsSpace(s[0]) {
        assert |StripLeft(s)| < |s|;
      } else {
        assert StripLeft(s) == s;
        StripRightFacts(s);
        assert |StripRight(s)| < |s|;
      }
    }
  }

  lemma StripResultIsStripped(s: string)
    ensures IsStripped(Strip(s))
  {
    var l := StripLeft(s);
    var r := StripRight(l);
    StripLeftFacts(s);
    StripRightFacts(l);
    if r != [] {
      assert r[0] == l[0];
    }
  }

  /** Stripping after a leading space, as the decoder does after `field:`. */
  lemma StripAfterSpace(s: string)
    requires IsStripped(s)
    ensures Strip(" " + s) == s
  {
    var t := " " + s;
    assert t != [] && IsSpace(t[0]);
    assert t[1..] == s;
    assert StripLeft(t) == StripLeft(t[1..]);
    assert StripLeft(s) == s;
    assert StripRight(s) == s;
  }

  // ---------------------------------------------------------------------
  // splitlines()
  // ---------------------------------------------------------------------

  /**
   * `splitlines()` with `cur` the part of the current line read so far: a
   * boundary (`"\r\n"` counting as one) ends the line, and a final boundary
   * does not start an empty last line.
   */
  function SplitLinesFrom(s: string, cur: string): seq<string>
    decreases |s|
  {
    if s == [] then (if cur == [] then [] else [cur])
    else if s[0] == '\r' && |s| > 1 && s[1] == '\n' then [cur] + SplitLinesFrom(s[2..], [])
    else if IsLineBreak(s[0]) then [cur] + SplitLinesFrom(s[1..], [])
    else SplitLinesFrom(s[1..], cur + [s[0]])
  }

  /** `s.splitlines()`. */
  function SplitLines(s: string): seq<string> {
    SplitLinesFrom(s, [])
  }

  lemma {:induction false} SplitLinesFromNoBreaks(s: string, cur: string)
    requires NoLineBreaks(cur)
    ensures forall k :: 0 <= k < |SplitLinesFrom(s, cur)| ==> NoLineBreaks(SplitLinesFrom(s, cur)[k])
    decreases |s|
  {
    if s == [] {
    } else if s[0] == '\r' && |s| > 1 && s[1] == '\n' {
      SplitLinesFromNoBreaks(s[2..], []);
    } else if IsLineBreak(s[0]) {
      SplitLinesFromNoBreaks(s[1..], []);
    } else {
      SplitLinesFromNoBreaks(s[1..], cur + [s[0]]);
    }
  }

  /** No line that `splitlines()` returns contains a line boundary. */
  lemma SplitLinesNoBreaks(s: string)
    ensures forall k :: 0 <= k < |SplitLines(s)| ==> NoLineBreaks(SplitLines(s)[k])
  {
    SplitLinesFromNoBreaks(s, []);
  }

  /** Text without boundaries only extends the current line. */
  lemma {:induction false} SplitLinesFromPlain(l: string, s: string, cur: string)
    requires NoLineBreaks(l)
    ensures SplitLinesFrom(l + s, cur) == SplitLinesFrom(s, cur + l)
    decreases |l|
  {
    if l != [] {
      assert (l + s)[0] == l[0];
      assert (l + s)[1..] == l[1..] + s;
      assert cur + [l[0]] + l[1..] == cur + l;
      SplitLinesFromPlain(l[1..], s, cur + [l[0]]);
    } else {
      assert l + s == s && cur + l == cur;
    }
  }

  lemma {:induction false} SplitLinesFromNonEmpty(s: string, cur: string)
    requires s != [] || cur != []
    ensures SplitLinesFrom(s, cur) != []
    decreases |s|
  {
    if s != [] && !IsLineBreak(s[0]) {
      SplitLinesFromNonEmpty(s[1..], cur + [s[0]]);
    }
  }

  /** A non-empty text without boundaries is one line. */
  lemma SplitLinesSingle(s: string)
    requires s != [] && NoLineBreaks(s)
    ensures SplitLines(s) == [s]
  {
    SplitLinesFromPlain(s, [], []);
    assert s + [] == s && [] + s == s;
  }

  /** Each line followed by `'\n'`: what a line-oriented writer produces. */
  function Terminated(lines: seq<string>): string {
    if lines == [] then [] else lines[0] + "\n" + Terminated(lines[1..])
  }

  /** `splitlines()` gives back the lines of a `'\n'`-terminated text. */
  lemma {:induction false} SplitTerminated(lines: seq<string>)
    requires forall k :: 0 <= k < |lines| ==> NoLineBreaks(lines[k])
    ensures SplitLines(Terminated(lines)) == lines
  {
    if lines != [] {
      var rest := Terminated(lines[1..]);
      assert Terminated(lines) == lines[0] + ("\n" + rest);
      SplitLinesFromPlain(lines[0], "\n" + rest, []);
      assert [] + lines[0] == lines[0];
      assert ("\n" + rest)[1..] == rest;
      SplitTerminated(lines[1..]);
    }
  }

  lemma {:induction false} JoinSplitLinesFrom(s: string, cur: string)
    requires OnlyNewlineBreaks(s) && !EndsWithNewline(s)
    ensures Join("\n", SplitLinesFrom(s, cur)) == cur + s
    decreases |s|
  {
    if s == [] {
      assert cur + s == cur;
    } else if IsLineBreak(s[0]) {
      assert s[0] == '\n';
      var rest := s[1..];
      assert rest != [] by { assert !EndsWithNewline(s); }
      assert OnlyNewlineBreaks(rest) by {
        forall i | 0 <= i < |rest| ensures IsLineBreak(rest[i]) ==> rest[i] == '\n' {
          assert rest[i] == s[i + 1];
        }
      }
      assert !EndsWithNewline(rest) by { assert rest[|rest| - 1] == s[|s| - 1]; }
      SplitLinesFromNonEmpty(rest, []);
      JoinSplitLinesFrom(rest, []);
      assert [] + rest == rest;
      assert s == "\n" + rest;
    } else {
      var rest := s[1..];
      assert OnlyNewlineBreaks(rest) by {
        forall i | 0 <= i < |rest| ensures IsLineBreak(rest[i]) ==> rest[i] == '\n' {
          assert rest[i] == s[i + 1];
        }
      }
      assert !EndsWithNewline(rest) by {
        if rest != [] { assert rest[|rest| - 1] == s[|s| - 1]; }
      }
      JoinSplitLinesFrom(rest, cur + [s[0]]);
      assert cur + [s[0]] + rest == cur + s by { assert s == [s[0]] + rest; }
    }
  }

  /**
   * `"\n".join(s.splitlines()) == s` when every boundary of `s` is `'\n'` and
   * `s` does not end in one.
   */
  lemma JoinSplitLines(s: string)
    requires OnlyNewlineBreaks(s) && !EndsWithNewline(s)
    ensures Join("\n", SplitLines(s)) == s
  {
    JoinSplitLinesFrom(s, []);
  }

  // ---------------------------------------------------------------------
  // "sep".join(parts) and s.split(sep)
  // ---------------------------------------------------------------------

  /** `sep.join(parts)`. */
  function Join(sep: string, parts: seq<string>): string
  {
    if parts == [] then []
    else if |parts| == 1 then parts[0]
    else parts[0] + sep + Join(sep, parts[1..])
  }

  lemma {:induction false} JoinTerminated(lines: seq<string>)
    requires lines != []
    ensures Join("\n", lines) + "\n" == Terminated(lines)
  {
    if |lines| > 1 {
      JoinTerminated(lines[1..]);
    }
  }

  /** `s.split(sep)` with `cur` the field read so far. */
  function SplitFrom(s: string, sep: char, cur: string): (r: seq<string>)
    ensures |r| >= 1
    decreases |s|
  {
    if s == [] then [cur]
    else if s[0] == sep then [cur] + SplitFrom(s[1..], sep, [])
    else SplitFrom(s[1..], sep, cur + [s[0]])
  }

  /** `s.split(sep)` for a one-character separator: never empty (`"".split(",") == [""]`). */
  function Split(s: string, sep: char): seq<string> {
    SplitFrom(s, sep, [])
  }

  lemma {:induction false} JoinSplitFrom(s: string, sep: char, cur: string)
    ensures Join([sep], SplitFrom(s, sep, cur)) == cur + s
    decreases |s|
  {
    if s == [] {
      assert cur + s == cur;
    } else if s[0] == sep {
      JoinSplitFrom(s[1..], sep, []);
      assert [] + s[1..] == s[1..];
      assert s == [sep] + s[1..];
    } else {
      JoinSplitFrom(s[1..], sep, cur + [s[0]]);
      assert cur + [s[0]] + s[1..] == cur + s by { assert s == [s[0]] + s[1..]; }
    }
  }

  /** Joining the fields of `split` with the separator gives the string back. */
  lemma JoinSplit(s: string, sep: char)
    ensures Join([sep], Split(s, sep)) == s
  {
    JoinSplitFrom(s, sep, []);
  }

  lemma {:induction false} SplitFromPlain(l: string, s: string, sep: char, cur: string)
    requires sep !in l
    ensures SplitFrom(l + s, sep, cur) == SplitFrom(s, sep, cur + l)
    decreases |l|
  {
    if l != [] {
      assert (l + s)[0] == l[0];
      assert (l + s)[1..] == l[1..] + s;
      assert cur + [l[0]] + l[1..] == cur + l;
      SplitFromPlain(l[1..], s, sep, cur + [l[0]]);
    } else {
      assert l + s == s && cur + l == cur;
    }
  }

  /** A string without the separator is a single field. */
  lemma SplitWithoutSep(s: string, sep: char)
    requires sep !in s
    ensures Split(s, sep) == [s]
  {
    SplitFromPlain(s, [], sep, []);
    assert s + [] == s && [] + s == s;
  }

  /** Splitting a join of separator-free fields gives the fields back. */
  lemma {:induction false} SplitJoin(parts: seq<string>, sep: char)
    requires parts != []
    requires forall k :: 0 <= k < |parts| ==> sep !in parts[k]
    ensures Split(Join([sep], parts), sep) == parts
  {
    if |parts| == 1 {
      SplitFromPlain(parts[0], [], sep, []);
      assert parts[0] + [] == parts[0];
      assert [] + parts[0] == parts[0];
    } else {
      var rest := Join([sep], parts[1..]);
      assert Join([sep], parts) == parts[0] + ([sep] + rest);
      SplitFromPlain(parts[0], [sep] + rest, sep, []);
      assert [] + parts[0] == parts[0];
      assert ([sep] + rest)[1..] == rest;
      SplitJoin(parts[1..], sep);
    }
  }

  // ---------------------------------------------------------------------
  // str() of integers
  // ---------------------------------------------------------------------

  predicate IsDigit(c: char) {
    '0' <= c <= '9'
  }

  predicate AllDigits(s: string) {
    forall i :: 0 <= i < |s| ==> IsDigit(s[i])
  }

  function DigitChar(d: nat): (c: char)
    requires d < 10
    ensures IsDigit(c)
  {
    ['0', '1', '2', '3', '4', '5', '6', '7', '8', '9'][d]
  }

  function DigitValue(c: char): (d: nat)
    requires IsDigit(c)
    ensures d < 10 && DigitChar(d) == c
  {
    (c as int - '0' as int) as nat
  }

  /** `str(n)` for `n >= 0`: decimal digits without leading zeros. */
  function NatToString(n: nat): (r: string)
    ensures r != [] && AllDigits(r)
    ensures n >= 10 ==> r[0] != '0'
  {
    if n < 10 then [DigitChar(n)] else NatToString(n / 10) + [DigitChar(n % 10)]
  }

  /** `str(i)`: decimal, with a leading `'-'` for negative values. */
  function IntToString(i: int): (r: string)
    ensures r != []
  {
    if i < 0 then "-" + NatToString(-i) else NatToString(i)
  }

  /** The value of a non-empty string of decimal digits. */
  function DigitsValue(s: string): nat
    requires AllDigits(s)
  {
    if s == [] then 0 else DigitsValue(s[..|s| - 1]) * 10 + DigitValue(s[|s| - 1])
  }

  lemma {:induction false} DigitsOfNat(n: nat)
    ensures DigitsValue(NatToString(n)) == n
  {
    if n >= 10 {
      var r := NatToString(n);
      assert r[..|r| - 1] == NatToString(n / 10);
      DigitsOfNat(n / 10);
    }
  }

  lemma IntToStringNoBreaks(i: int)
    ensures NoLineBreaks(IntToString(i)) && IsStripped(IntToString(i))
  {
  }

  // ---------------------------------------------------------------------
  // startswith() and removeprefix()
  // ---------------------------------------------------------------------

  /** `s.startswith(prefix)`. */
  predicate StartsWith(s: string, prefix: string) {
    |prefix| <= |s| && s[..|prefix|] == prefix
  }

  /** `s.removeprefix(prefix)`: what follows the prefix when `s` starts with it, else `s`. */
  function RemovePrefix(s: string, prefix: string): (r: string)
    ensures StartsWith(s, prefix) ==> prefix + r == s
    ensures !StartsWith(s, prefix) ==> r == s
  {
    if StartsWith(s, prefix) then s[|prefix|..] else s
  }
}
