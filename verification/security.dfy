/**
 * read_security_config: two constants scraped from the text of a source file
 * with `re.search`, never by running it. The search is modelled as a scan
 * and checked against a declarative account of where the pattern matches.
 */
module SecurityScan {
  import opened Wrappers
  import opened Text
  import opened Numbers
  import opened Records

  const FaceKeyword := "face_detection_threshold"
  const LivenessKeyword := "liveness_min_valid_frames"

  /** What the capture group repeats: `\d` (ASCII digits here) or `[0-9.]`. */
  datatype ValueClass = Digits | DigitsAndDots

  predicate InClass(cls: ValueClass, c: char) {
    match cls
    case Digits => IsDigit(c)
    case DigitsAndDots => IsDigitOrDot(c)
  }

  /** Where greedy `\s*` starting at `p` stops; `\s` also matches line ends. */
  function SkipSpace(s: string, p: nat): (q: nat)
    requires p <= |s|
    ensures p <= q <= |s|
    ensures forall i :: p <= i < q ==> IsSpace(s[i])
    ensures q < |s| ==> !IsSpace(s[q])
    decreases |s| - p
  {
    if p < |s| && IsSpace(s[p]) then SkipSpace(s, p + 1) else p
  }

  /** Where greedy `[class]+` starting at `p` stops. */
  function RunEnd(s: string, p: nat, cls: ValueClass): (q: nat)
    requires p <= |s|
    ensures p <= q <= |s|
    ensures forall i :: p <= i < q ==> InClass(cls, s[i])
    ensures q < |s| ==> !InClass(cls, s[q])
    decreases |s| - p
  {
    if p < |s| && InClass(cls, s[p]) then RunEnd(s, p + 1, cls) else p
  }

  /** The next `\n` at or after `p`, or `|s|`: `.` matches every other character. */
  function LineEnd(s: string, p: nat): (q: nat)
    requires p <= |s|
    ensures p <= q <= |s|
    ensures forall i :: p <= i < q ==> s[i] != '\n'
    ensures q < |s| ==> s[q] == '\n'
    decreases |s| - p
  {
    if p < |s| && s[p] != '\n' then LineEnd(s, p + 1) else p
  }

  /** An `=` at `p` from which `=\s*[class]` matches. */
  predicate Qualifies(s: string, p: nat, cls: ValueClass) {
    p < |s| && s[p] == '=' && SkipSpace(s, p + 1) < |s| && InClass(cls, s[SkipSpace(s, p + 1)])
  }

  /** The capture group when the match uses the `=` at `p`: the whole run after the whitespace. */
  function CaptureAfter(s: string, p: nat, cls: ValueClass): (v: string)
    requires Qualifies(s, p, cls)
    ensures |v| > 0 && forall i :: 0 <= i < |v| ==> InClass(cls, v[i])
    ensures var from := SkipSpace(s, p + 1);
      v <= s[from..] && (from + |v| < |s| ==> !InClass(cls, s[from + |v|]))
  {
    var from := SkipSpace(s, p + 1);
    s[from..RunEnd(s, from, cls)]
  }

  /**
   * The regex `keyword.*=\s*([class]+)` matches at start `i` with its `=` at `p`:
   * the keyword is at `i`, the `=` comes after it with no `\n` in between, and
   * the value class follows the whitespace after the `=`.
   */
  ghost predicate MatchAt(s: string, kw: string, cls: ValueClass, i: int, p: int) {
    0 <= i && i + |kw| <= p < |s| && s[i..i + |kw|] == kw && Qualifies(s, p, cls)
    && forall j :: i + |kw| <= j < p ==> s[j] != '\n'
  }

  /** The last qualifying `=` in `[lo, hi)`: the one greedy `.*` backtracks to first. */
  function LastQualifying(s: string, lo: nat, hi: nat, cls: ValueClass): (r: Option<nat>)
    requires lo <= hi <= |s|
    ensures r.Some? ==> lo <= r.value < hi && Qualifies(s, r.value, cls)
    ensures r.Some? ==> forall q :: r.value < q < hi ==> !Qualifies(s, q, cls)
    ensures r.None? ==> forall q :: lo <= q < hi ==> !Qualifies(s, q, cls)
    decreases hi - lo
  {
    if hi == lo then None
    else if Qualifies(s, hi - 1, cls) then Some(hi - 1)
    else LastQualifying(s, lo, hi - 1, cls)
  }

  /** With the keyword at `i`, the `=` of a match is a qualifying `=` on the rest of the keyword's line. */
  lemma MatchOnLine(s: string, kw: string, cls: ValueClass, i: nat, p: int)
    requires i + |kw| <= |s| && s[i..i + |kw|] == kw
    ensures MatchAt(s, kw, cls, i, p) <==>
      i + |kw| <= p < LineEnd(s, i + |kw|) && Qualifies(s, p, cls)
  {
  }

  /**
   * `re.search` from position `i` on: the start `i'` and the `=` position of the
   * match it reports, trying starts from left to right and, at one start, the
   * rightmost `=` on the keyword's line first.
   */
  function FindMatch(s: string, kw: string, cls: ValueClass, i: nat): (r: Option<(nat, nat)>)
    ensures r.Some? ==> i <= r.value.0 && MatchAt(s, kw, cls, r.value.0, r.value.1)
    ensures r.Some? ==> forall i', p' :: i <= i' && MatchAt(s, kw, cls, i', p') ==>
      r.value.0 < i' || (r.value.0 == i' && p' <= r.value.1)
    ensures r.None? ==> forall i', p' :: i <= i' ==> !MatchAt(s, kw, cls, i', p')
    decreases |s| + 1 - i
  {
    if i + |kw| > |s| then None
    else if s[i..i + |kw|] == kw then
      var line := LineEnd(s, i + |kw|);
      match LastQualifying(s, i + |kw|, line, cls)
      case Some(p) =>
        MatchOnLineAll(s, kw, cls, i);
        Some((i, p))
      case None =>
        MatchOnLineAll(s, kw, cls, i);
        FindMatch(s, kw, cls, i + 1)
    else
      FindMatch(s, kw, cls, i + 1)
  }

  lemma MatchOnLineAll(s: string, kw: string, cls: ValueClass, i: nat)
    requires i + |kw| <= |s| && s[i..i + |kw|] == kw
    ensures forall p :: MatchAt(s, kw, cls, i, p) <==>
      i + |kw| <= p < LineEnd(s, i + |kw|) && Qualifies(s, p, cls)
  {
    forall p ensures MatchAt(s, kw, cls, i, p) <==> i + |kw| <= p < LineEnd(s, i + |kw|) && Qualifies(s, p, cls) {
      MatchOnLine(s, kw, cls, i, p);
    }
  }

  /** `m.group(1)` of `re.search(keyword + r'.*=\s*(' + class + '+)', s)`, or None when it finds nothing. */
  function Search(s: string, kw: string, cls: ValueClass): Option<string> {
    match FindMatch(s, kw, cls, 0)
    case Some((_, p)) => Some(CaptureAfter(s, p, cls))
    case None => None
  }

  /**
   * read_security_config; `content` is None when the file does not exist, and
   * otherwise the file's characters as stored. Reading in text mode turns its
   * line ends into `\n` before the search.
   */
  function ReadSecurityConfig(content: Option<string>): (r: Result<SecurityConfig, Failure>)
    ensures content.None? ==> r == Ok(SecurityConfig(None, None))
  {
    match content
    case None => Ok(SecurityConfig(None, None))
    case Some(raw) => ConfigOf(UniversalNewlines(raw))
  }

  /** The two searches over the text as read, and the conversions of what they capture. */
  function ConfigOf(text: string): Result<SecurityConfig, Failure> {
    var face := Search(text, FaceKeyword, DigitsAndDots);
    var frames := Search(text, LivenessKeyword, Digits);
    if face.Some? && !IsFloatText(face.value) then Err(BadNumber(face.value))
    else
      Ok(SecurityConfig(
        if face.Some? then Some(FloatOf(face.value)) else None,
        if frames.Some? then Some(DigitsValue(frames.value)) else None))
  }

  /** The match `re.search` reports: no match starts further left, and none at the same start has its `=` further right. */
  ghost predicate ChosenMatch(s: string, kw: string, cls: ValueClass, i: int, p: int) {
    MatchAt(s, kw, cls, i, p)
    && forall i', p' :: MatchAt(s, kw, cls, i', p') ==> i < i' || (i == i' && p' <= p)
  }

  /**
   * Search finds nothing exactly when the pattern matches nowhere; otherwise it
   * returns the maximal value run after the `=` of the leftmost match, taken with
   * its rightmost `=`.
   */
  lemma SearchIsLeftmostGreedy(s: string, kw: string, cls: ValueClass)
    ensures Search(s, kw, cls).None? <==> forall i, p :: !MatchAt(s, kw, cls, i, p)
    ensures Search(s, kw, cls).Some? ==>
      exists i, p :: ChosenMatch(s, kw, cls, i, p) && Search(s, kw, cls).value == CaptureAfter(s, p, cls)
  {
    var m := FindMatch(s, kw, cls, 0);
    if m.Some? {
      assert ChosenMatch(s, kw, cls, m.value.0, m.value.1);
    }
  }

  /**
   * `liveness_min_frames` is absent exactly when its pattern matches nowhere;
   * when present it is `int()` of the digits after the `=` of the chosen match.
   */
  lemma LivenessField(text: string)
    ensures var r := ConfigOf(text);
      r.Ok? ==> (r.value.livenessMinFrames.None? <==> forall i, p :: !MatchAt(text, LivenessKeyword, Digits, i, p))
    ensures var r := ConfigOf(text);
      r.Ok? && r.value.livenessMinFrames.Some? ==>
        exists i, p :: ChosenMatch(text, LivenessKeyword, Digits, i, p)
          && r.value.livenessMinFrames == ParseInt(CaptureAfter(text, p, Digits))
  {
    SearchIsLeftmostGreedy(text, LivenessKeyword, Digits);
    var found := Search(text, LivenessKeyword, Digits);
    if found.Some? {
      var i, p :| ChosenMatch(text, LivenessKeyword, Digits, i, p) && found.value == CaptureAfter(text, p, Digits);
      ParseIntOfDigits(found.value);
    }
  }

  /**
   * The face threshold is absent exactly when its pattern matches nowhere; a
   * capture that `float()` rejects (two dots, or no digit) makes the whole read
   * fail; otherwise the threshold is the float of the chosen match's capture.
   */
  lemma FaceField(text: string)
    ensures var r, found := ConfigOf(text), Search(text, FaceKeyword, DigitsAndDots);
      r.Err? <==> found.Some? && !(AtMostOneDot(found.value) && HasDigit(found.value))
    ensures var r := ConfigOf(text);
      r.Err? ==> r.error == BadNumber(Search(text, FaceKeyword, DigitsAndDots).value)
    ensures var r := ConfigOf(text);
      r.Ok? ==> (r.value.faceThreshold.None? <==> forall i, p :: !MatchAt(text, FaceKeyword, DigitsAndDots, i, p))
    ensures var r := ConfigOf(text);
      r.Ok? && r.value.faceThreshold.Some? ==>
        exists i, p :: ChosenMatch(text, FaceKeyword, DigitsAndDots, i, p)
          && r.value.faceThreshold == Some(FloatOf(CaptureAfter(text, p, DigitsAndDots)))
  {
    SearchIsLeftmostGreedy(text, FaceKeyword, DigitsAndDots);
    var found := Search(text, FaceKeyword, DigitsAndDots);
    if found.Some? {
      FloatTextOfDigitsAndDots(found.value);
    }
  }

  /** A text that does not contain the keyword leaves the field absent. */
  lemma AbsentKeyword(text: string, kw: string, cls: ValueClass)
    requires !Contains(text, kw)
    ensures Search(text, kw, cls) == None
  {
    forall i, p | MatchAt(text, kw, cls, i, p) ensures OccursAt(text, kw, i) {
    }
    ContainsIff(text, kw);
    SearchIsLeftmostGreedy(text, kw, cls);
  }

  /** A line that starts `keyword = value`, then the line end or the end of the text. */
  predicate AssignmentLine(kw: string, v: string, rest: string, cls: ValueClass) {
    |v| > 0 && (forall i :: 0 <= i < |v| ==> InClass(cls, v[i])) && (rest == [] || rest[0] == '\n')
  }

  /** Which characters the first line holds after the keyword. */
  lemma AssignmentChars(kw: string, v: string, rest: string, cls: ValueClass, k: nat)
    requires AssignmentLine(kw, v, rest, cls)
    requires |kw| <= k < |kw| + 3 + |v|
    ensures var text := kw + " = " + v + rest;
      text[k] != '\n' && (text[k] == '=' <==> k == |kw| + 1)
      && (k > |kw| + 2 ==> InClass(cls, text[k]))
  {
    var text := kw + " = " + v + rest;
    if k > |kw| + 2 {
      assert text[k] == v[k - |kw| - 3];
    }
  }

  /** Where the first line ends: right after the value. */
  lemma AssignmentLineEnd(kw: string, v: string, rest: string, cls: ValueClass)
    requires AssignmentLine(kw, v, rest, cls)
    ensures LineEnd(kw + " = " + v + rest, |kw|) == |kw| + 3 + |v|
  {
    var text := kw + " = " + v + rest;
    var e := |kw| + 3 + |v|;
    forall k | |kw| <= k < e ensures text[k] != '\n' {
      AssignmentChars(kw, v, rest, cls, k);
    }
    if e < |text| {
      assert text[e] == rest[0];
    }
  }

  lemma AssignmentCapture(kw: string, v: string, rest: string, cls: ValueClass)
    requires AssignmentLine(kw, v, rest, cls)
    ensures Qualifies(kw + " = " + v + rest, |kw| + 1, cls)
    ensures CaptureAfter(kw + " = " + v + rest, |kw| + 1, cls) == v
  {
    var text := kw + " = " + v + rest;
    var n := |kw|;
    var e := n + 3 + |v|;
    AssignmentChars(kw, v, rest, cls, n + 1);
    AssignmentChars(kw, v, rest, cls, n + 3);
    assert text[n + 2] == ' ' && IsSpace(text[n + 2]);
    assert text[n + 3] == v[0];
    assert SkipSpace(text, n + 2) == n + 3;
    forall k | n + 3 <= k < e ensures InClass(cls, text[k]) {
      AssignmentChars(kw, v, rest, cls, k);
    }
    if e < |text| {
      assert text[e] == rest[0] == '\n';
    }
    assert RunEnd(text, n + 3, cls) == e;
    assert text[n + 3..e] == v;
  }

  lemma AssignmentEquals(kw: string, v: string, rest: string, cls: ValueClass)
    requires AssignmentLine(kw, v, rest, cls)
    ensures LastQualifying(kw + " = " + v + rest, |kw|, |kw| + 3 + |v|, cls) == Some(|kw| + 1)
  {
    var text := kw + " = " + v + rest;
    AssignmentCapture(kw, v, rest, cls);
    var r := LastQualifying(text, |kw|, |kw| + 3 + |v|, cls);
    AssignmentChars(kw, v, rest, cls, r.value);
  }

  /** The search stops at the first keyword: the `=` it reports is the one after `keyword `. */
  lemma AssignmentMatch(kw: string, v: string, rest: string, cls: ValueClass)
    requires AssignmentLine(kw, v, rest, cls)
    ensures FindMatch(kw + " = " + v + rest, kw, cls, 0) == Some((0, |kw| + 1))
  {
    var text := kw + " = " + v + rest;
    assert text[0..|kw|] == kw;
    AssignmentLineEnd(kw, v, rest, cls);
    AssignmentEquals(kw, v, rest, cls);
  }

  /** A text whose first line is `keyword = value`: the value is captured, whatever follows. */
  lemma AssignmentOnFirstLine(kw: string, v: string, rest: string, cls: ValueClass)
    requires |v| > 0 && forall i :: 0 <= i < |v| ==> InClass(cls, v[i])
    requires rest == [] || rest[0] == '\n'
    ensures Search(kw + " = " + v + rest, kw, cls) == Some(v)
  {
    AssignmentMatch(kw, v, rest, cls);
    AssignmentCapture(kw, v, rest, cls);
  }

  const ExampleConfig := "face_detection_threshold = 0.6"

  lemma ExampleHasNoLivenessKeyword()
    ensures !Contains(ExampleConfig, LivenessKeyword)
  {
    var text := ExampleConfig;
    forall i | OccursAt(text, LivenessKeyword, i) ensures text[i] == 'l' {
      assert text[i..i + |LivenessKeyword|][0] == text[i];
    }
    assert forall i :: 0 <= i <= 5 ==> text[i] != 'l';
    ContainsIff(text, LivenessKeyword);
  }

  lemma ExampleFaceValue()
    ensures Search(ExampleConfig, FaceKeyword, DigitsAndDots) == Some("0.6")
  {
    assert ExampleConfig == FaceKeyword + " = " + "0.6" + "";
    AssignmentOnFirstLine(FaceKeyword, "0.6", "", DigitsAndDots);
  }

  lemma ExampleFaceValueIsFloat()
    ensures IsFloatText("0.6")
  {
    assert OnlyDigitsAndDots("0.6") && AtMostOneDot("0.6") && IsDigit("0.6"[0]);
    FloatTextOfDigitsAndDots("0.6");
  }

  lemma ExampleReadsUnchanged()
    ensures UniversalNewlines(ExampleConfig) == ExampleConfig
  {
    var text := ExampleConfig;
    assert forall i :: 0 <= i < |text| ==> text[i] != '\r';
    TranslationKeepsPlainText(text);
  }

  /** `face_detection_threshold = 0.6` alone gives the threshold 0.6 and no frame count. */
  lemma FaceOnlyExample()
    ensures ReadSecurityConfig(Some(ExampleConfig)) == Ok(SecurityConfig(Some(FloatOf("0.6")), None))
  {
    ExampleReadsUnchanged();
    ExampleFaceValue();
    ExampleHasNoLivenessKeyword();
    AbsentKeyword(ExampleConfig, LivenessKeyword, Digits);
    ExampleFaceValueIsFloat();
  }

  /** A file whose lines end in a lone `\r`: the second line's `=` is not on the keyword's line. */
  const CrFirstLine := "face_detection_threshold = 0.5"
  const CrSecondLine := "# note = 0.9"
  const CrConfig := CrFirstLine + "\r" + CrSecondLine + "\r"
  const CrConfigRead := CrFirstLine + "\n" + CrSecondLine + "\n"

  /** Two lines each ended by a lone `\r` read as two lines ended by `\n`. */
  lemma TwoCrLines(first: string, second: string)
    requires forall i :: 0 <= i < |first| ==> first[i] != '\r'
    requires forall i :: 0 <= i < |second| ==> second[i] != '\r'
    requires second == [] || second[0] != '\n'
    ensures UniversalNewlines(first + "\r" + second + "\r") == first + "\n" + second + "\n"
  {
    var tail := second + "\r";
    CrTranslated(second, []);
    assert second + "\r" + [] == tail;
    assert UniversalNewlines(tail) == second + "\n" + UniversalNewlines([]);
    assert tail[0] != '\n' by {
      if second == [] {
        assert tail == "\r";
      } else {
        assert tail[0] == second[0];
      }
    }
    CrTranslated(first, tail);
    assert first + "\r" + tail == first + "\r" + second + "\r";
  }

  lemma CrConfigTranslated()
    ensures UniversalNewlines(CrConfig) == CrConfigRead
  {
    var first, second := CrFirstLine, CrSecondLine;
    assert forall i :: 0 <= i < |first| ==> first[i] != '\r';
    assert forall i :: 0 <= i < |second| ==> second[i] != '\r';
    assert second[0] == '#';
    TwoCrLines(first, second);
  }

  lemma CrConfigHasNoLivenessKeyword()
    ensures !Contains(CrConfigRead, LivenessKeyword)
  {
    var text := CrConfigRead;
    forall i | OccursAt(text, LivenessKeyword, i) ensures text[i] == 'l' {
      assert text[i..i + |LivenessKeyword|][0] == text[i];
    }
    assert forall i :: 0 <= i <= |text| - |LivenessKeyword| ==> text[i] != 'l';
    ContainsIff(text, LivenessKeyword);
  }

  lemma CrConfigFaceValue()
    ensures Search(CrConfigRead, FaceKeyword, DigitsAndDots) == Some("0.5")
  {
    assert CrConfigRead == FaceKeyword + " = " + "0.5" + "\n# note = 0.9\n";
    AssignmentOnFirstLine(FaceKeyword, "0.5", "\n# note = 0.9\n", DigitsAndDots);
  }

  lemma CrConfigValueIsFloat()
    ensures IsFloatText("0.5")
  {
    assert OnlyDigitsAndDots("0.5") && AtMostOneDot("0.5") && IsDigit("0.5"[0]);
    FloatTextOfDigitsAndDots("0.5");
  }

  /** With `\r` line ends the threshold is still read from the first line only: 0.5, not 0.9. */
  lemma CrLineEndsExample()
    ensures ReadSecurityConfig(Some(CrConfig)) == Ok(SecurityConfig(Some(FloatOf("0.5")), None))
  {
    CrConfigTranslated();
    CrConfigFaceValue();
    CrConfigHasNoLivenessKeyword();
    AbsentKeyword(CrConfigRead, LivenessKeyword, Digits);
    CrConfigValueIsFloat();
  }
}
