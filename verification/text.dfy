/**
 * The pieces of Python's string handling that the parsers rely on:
 * `str.isspace`, ASCII `str.lower`, the `in` substring test, slicing
 * `s[:k]`, `str.strip` and `str.splitlines`.
 */
module Text {

  /** Python's `str.isspace()`: what `\s` matches in a str pattern and what int() and float() strip. */
  predicate IsSpace(c: char) {
    ('\t' <= c <= '\r') || ('\U{1c}' <= c <= '\U{1f}') || c == ' ' || c == '\U{85}' || c == '\U{a0}'
    || c == '\U{1680}' || ('\U{2000}' <= c <= '\U{200a}') || c == '\U{2028}' || c == '\U{2029}'
    || c == '\U{202f}' || c == '\U{205f}' || c == '\U{3000}'
  }

  /** The characters at which `str.splitlines()` ends a line (`\r\n` counts as one boundary). */
  predicate IsLineBoundary(c: char) {
    ('\n' <= c <= '\r') || ('\U{1c}' <= c <= '\U{1e}') || c == '\U{85}' || c == '\U{2028}' || c == '\U{2029}'
  }

  /** A string that `str.splitlines()` leaves whole. */
  predicate IsLine(s: string) {
    forall i :: 0 <= i < |s| ==> !IsLineBoundary(s[i])
  }

  function LowerChar(c: char): char {
    if 'A' <= c <= 'Z' then (c as int + 32) as char else c
  }

  /** `str.lower()` restricted to ASCII letters. */
  function Lower(s: string): (r: string)
    ensures |r| == |s|
    ensures forall i :: 0 <= i < |s| ==> r[i] == LowerChar(s[i])
  {
    seq(|s|, i requires 0 <= i < |s| => LowerChar(s[i]))
  }

  /**
   * What reading a file in text mode with universal newlines returns: every
   * `\r\n` and every other `\r` becomes `\n`.
   */
  function UniversalNewlines(raw: string): string
    decreases |raw|
  {
    if raw == [] then []
    else if raw[0] == '\r' then
      "\n" + UniversalNewlines(if |raw| > 1 && raw[1] == '\n' then raw[2..] else raw[1..])
    else [raw[0]] + UniversalNewlines(raw[1..])
  }

  /** No `\r` survives the translation. */
  lemma {:induction false} NoCrAfterTranslation(raw: string)
    ensures forall i :: 0 <= i < |UniversalNewlines(raw)| ==> UniversalNewlines(raw)[i] != '\r'
    decreases |raw|
  {
    if raw != [] {
      if raw[0] == '\r' {
        NoCrAfterTranslation(if |raw| > 1 && raw[1] == '\n' then raw[2..] else raw[1..]);
      } else {
        NoCrAfterTranslation(raw[1..]);
      }
    }
  }

  /** A text without `\r` is read back unchanged. */
  lemma {:induction false} TranslationKeepsPlainText(raw: string)
    requires forall i :: 0 <= i < |raw| ==> raw[i] != '\r'
    ensures UniversalNewlines(raw) == raw
    decreases |raw|
  {
    if raw != [] {
      assert raw[0] != '\r';
      assert forall i :: 0 <= i < |raw[1..]| ==> raw[1..][i] == raw[i + 1];
      TranslationKeepsPlainText(raw[1..]);
      assert raw == [raw[0]] + raw[1..];
    }
  }

  /** A `\r\n` pair becomes one `\n`. */
  lemma {:induction false} CrlfTranslated(l: string, tail: string)
    requires forall i :: 0 <= i < |l| ==> l[i] != '\r'
    ensures UniversalNewlines(l + "\r\n" + tail) == l + "\n" + UniversalNewlines(tail)
    decreases |l|
  {
    var s := l + "\r\n" + tail;
    if l == [] {
      assert s == "\r\n" + tail && s[2..] == tail;
    } else {
      assert s[0] == l[0] && s[1..] == l[1..] + "\r\n" + tail;
      CrlfTranslated(l[1..], tail);
      assert UniversalNewlines(s) == [l[0]] + UniversalNewlines(s[1..]);
      assert [l[0]] + (l[1..] + "\n" + UniversalNewlines(tail)) == l + "\n" + UniversalNewlines(tail);
    }
  }

  /** A `\r` not followed by `\n` becomes `\n`. */
  lemma {:induction false} CrTranslated(l: string, tail: string)
    requires forall i :: 0 <= i < |l| ==> l[i] != '\r'
    requires tail == [] || tail[0] != '\n'
    ensures UniversalNewlines(l + "\r" + tail) == l + "\n" + UniversalNewlines(tail)
    decreases |l|
  {
    var s := l + "\r" + tail;
    if l == [] {
      assert s == "\r" + tail;
      LoneCr(tail);
    } else {
      assert s[0] == l[0] && s[1..] == l[1..] + "\r" + tail;
      CrTranslated(l[1..], tail);
      assert UniversalNewlines(s) == [l[0]] + UniversalNewlines(s[1..]);
      assert [l[0]] + (l[1..] + "\n" + UniversalNewlines(tail)) == l + "\n" + UniversalNewlines(tail);
    }
  }

  lemma LoneCr(tail: string)
    requires tail == [] || tail[0] != '\n'
    ensures UniversalNewlines("\r" + tail) == "\n" + UniversalNewlines(tail)
  {
    var s := "\r" + tail;
    assert s[0] == '\r' && s[1..] == tail;
    if |s| > 1 {
      assert s[1] == tail[0];
    }
  }

  /** `pat in s`, by scanning from the left. */
  function Contains(s: string, pat: string): bool
    decreases |s|
  {
    if |pat| > |s| then false
    else s[..|pat|] == pat || Contains(s[1..], pat)
  }

  ghost predicate OccursAt(s: string, pat: string, i: int) {
    0 <= i && i + |pat| <= |s| && s[i..i + |pat|] == pat
  }

  /** The scan finds `pat` exactly when it occurs at some position of `s`. */
  lemma {:induction false} ContainsIff(s: string, pat: string)
    ensures Contains(s, pat) <==> exists i :: OccursAt(s, pat, i)
    decreases |s|
  {
    if |pat| > |s| {
    } else if s[..|pat|] == pat {
      assert OccursAt(s, pat, 0);
    } else {
      ContainsIff(s[1..], pat);
      if Contains(s[1..], pat) {
        var i :| OccursAt(s[1..], pat, i);
        assert s[1..][i..i + |pat|] == s[i + 1..i + 1 + |pat|];
        assert OccursAt(s, pat, i + 1);
      } else {
        forall i | OccursAt(s, pat, i) ensures false {
          assert i != 0;
          assert s[1..][i - 1..i - 1 + |pat|] == s[i..i + |pat|];
          assert OccursAt(s[1..], pat, i - 1);
        }
      }
    }
  }

  function Min(a: int, b: int): int { if a <= b then a else b }

  function Max(a: int, b: int): int { if a <= b then b else a }

  /** Python's slice `s[:k]`: a negative stop counts back from the end. */
  function SliceTo<T>(s: seq<T>, k: int): (r: seq<T>)
    ensures r <= s
    ensures |r| == if k >= 0 then Min(k, |s|) else Max(0, |s| + k)
  {
    if k >= |s| then s
    else if k >= 0 then s[..k]
    else if |s| + k >= 0 then s[..|s| + k]
    else []
  }

  function LeadingSpaces(s: string): (n: nat)
    ensures n <= |s|
    ensures forall i :: 0 <= i < n ==> IsSpace(s[i])
    ensures n < |s| ==> !IsSpace(s[n])
  {
    if s != [] && IsSpace(s[0]) then 1 + LeadingSpaces(s[1..]) else 0
  }

  function TrailingSpaces(s: string): (n: nat)
    ensures n <= |s|
    ensures forall i :: |s| - n <= i < |s| ==> IsSpace(s[i])
    ensures n < |s| ==> !IsSpace(s[|s| - n - 1])
  {
    if s != [] && IsSpace(s[|s| - 1]) then 1 + TrailingSpaces(s[..|s| - 1]) else 0
  }

  /** `str.strip()`: the string without its leading and trailing whitespace. */
  function Strip(s: string): (r: string)
    ensures |r| > 0 ==> !IsSpace(r[0]) && !IsSpace(r[|r| - 1])
    ensures (forall i :: 0 <= i < |s| ==> !IsSpace(s[i])) ==> r == s
  {
    var a := LeadingSpaces(s);
    s[a..][..|s[a..]| - TrailingSpaces(s[a..])]
  }

  /** Stripping cuts whitespace off the two ends of `s` and keeps everything in between. */
  lemma StripCutsOnlyEnds(s: string)
    ensures exists a, b ::
      && 0 <= a <= b <= |s| && Strip(s) == s[a..b]
      && (forall i :: 0 <= i < a ==> IsSpace(s[i]))
      && (forall i :: b <= i < |s| ==> IsSpace(s[i]))
  {
    var a := LeadingSpaces(s);
    var t := s[a..];
    var b := a + (|t| - TrailingSpaces(t));
    forall i | b <= i < |s| ensures IsSpace(s[i]) {
      assert s[i] == t[i - a];
    }
    assert Strip(s) == t[..b - a] == s[a..b];
    assert forall i :: 0 <= i < a ==> IsSpace(s[i]);
  }

  /** Index of the first line boundary in `s`, or `|s|` when there is none. */
  function FirstBoundary(s: string): (n: nat)
    ensures n <= |s|
    ensures IsLine(s[..n])
    ensures n < |s| ==> IsLineBoundary(s[n])
  {
    if s == [] || IsLineBoundary(s[0]) then 0
    else
      var n := 1 + FirstBoundary(s[1..]);
      assert s[..n] == [s[0]] + s[1..][..n - 1];
      n
  }

  /**
   * `str.splitlines()`: the lines of `s` without their line ends; a final line
   * end does not start an empty line, and `\r\n` is one line end.
   */
  function SplitLines(s: string): (lines: seq<string>)
    ensures forall k :: 0 <= k < |lines| ==> IsLine(lines[k])
    decreases |s|
  {
    if s == [] then []
    else
      var e := FirstBoundary(s);
      if e == |s| then [s]
      else
        var next := if s[e] == '\r' && e + 1 < |s| && s[e + 1] == '\n' then e + 2 else e + 1;
        [s[..e]] + SplitLines(s[next..])
  }

  /** The text of `lines`, each followed by `\n`. */
  function Terminated(lines: seq<string>): string {
    if lines == [] then [] else lines[0] + "\n" + Terminated(lines[1..])
  }

  /** Splitting undoes writing lines out one per `\n`. */
  lemma SplitTerminated(lines: seq<string>)
    requires forall k :: 0 <= k < |lines| ==> IsLine(lines[k])
    ensures SplitLines(Terminated(lines)) == lines
  {
    SplitTerminatedThen(lines, "");
    assert Terminated(lines) + "" == Terminated(lines);
  }

  /** The same when a last line without a line end follows. */
  lemma {:induction false} SplitTerminatedThen(lines: seq<string>, last: string)
    requires forall k :: 0 <= k < |lines| ==> IsLine(lines[k])
    requires IsLine(last)
    ensures SplitLines(Terminated(lines) + last) == lines + (if last == [] then [] else [last])
  {
    if lines == [] {
      assert Terminated(lines) + last == last;
      SplitOneLine(last);
    } else {
      TerminatedFirst(lines, last);
      SplitLinesStep(lines[0], Terminated(lines[1..]) + last);
      SplitTerminatedThen(lines[1..], last);
      assert lines == [lines[0]] + lines[1..];
    }
  }

  lemma TerminatedFirst(lines: seq<string>, last: string)
    requires lines != []
    ensures Terminated(lines) + last == lines[0] + "\n" + (Terminated(lines[1..]) + last)
  {
  }

  lemma SplitOneLine(last: string)
    requires IsLine(last)
    ensures SplitLines(last) == if last == [] then [] else [last]
  {
  }

  lemma SplitLinesStep(l: string, tail: string)
    requires IsLine(l)
    ensures SplitLines(l + "\n" + tail) == [l] + SplitLines(tail)
  {
    var rest := "\n" + tail;
    var s := l + rest;
    assert s == l + "\n" + tail;
    FirstBoundaryOfLine(l, rest);
    assert s[|l|] == '\n' && s[..|l|] == l && s[|l| + 1..] == tail;
  }

  /** The text of `lines`, each followed by `\r\n`. */
  function CrlfTerminated(lines: seq<string>): string {
    if lines == [] then [] else lines[0] + "\r\n" + CrlfTerminated(lines[1..])
  }

  /** Splitting undoes writing lines out one per `\r\n`: the pair is a single line end. */
  lemma {:induction false} SplitCrlfTerminated(lines: seq<string>)
    requires forall k :: 0 <= k < |lines| ==> IsLine(lines[k])
    ensures SplitLines(CrlfTerminated(lines)) == lines
  {
    if lines != [] {
      assert CrlfTerminated(lines) == lines[0] + "\r\n" + CrlfTerminated(lines[1..]);
      SplitLinesCrlfStep(lines[0], CrlfTerminated(lines[1..]));
      SplitCrlfTerminated(lines[1..]);
      assert lines == [lines[0]] + lines[1..];
    }
  }

  lemma SplitLinesCrlfStep(l: string, tail: string)
    requires IsLine(l)
    ensures SplitLines(l + "\r\n" + tail) == [l] + SplitLines(tail)
  {
    var rest := "\r\n" + tail;
    var s := l + rest;
    assert s == l + "\r\n" + tail;
    FirstBoundaryOfLine(l, rest);
    assert s[|l|] == '\r' && s[|l| + 1] == '\n' && s[..|l|] == l && s[|l| + 2..] == tail;
  }

  lemma FirstBoundaryOfLine(l: string, rest: string)
    requires IsLine(l)
    requires rest != [] && IsLineBoundary(rest[0])
    ensures FirstBoundary(l + rest) == |l|
  {
    assert (l + rest)[|l|] == rest[0];
  }

  /** A pattern whose first character never occurs is not found. */
  lemma AbsentFirstChar(s: string, pat: string)
    requires |pat| > 0 && forall i :: 0 <= i < |s| ==> s[i] != pat[0]
    ensures !Contains(s, pat)
  {
    ContainsIff(s, pat);
    forall i | OccursAt(s, pat, i) ensures s[i] == pat[0] {
      assert s[i..i + |pat|][0] == s[i];
    }
  }
}
