/**
 * analyze_logs: one pass over the lines of a build log, sorting each line into
 * error lines, warning lines or neither, keeping the first 300 characters of
 * every error or warning line, and reporting the totals with the first
 * `max_lines` of each list.
 */
module LogScan {
  import opened Text
  import opened Records

  /** Kept lines are cut to this many characters. */
  const MaxLineLength := 300

  /** The `max_lines` of a call that does not pass one. */
  const DefaultMaxLines := 50

  datatype LineKind = ErrorLine | WarningLine | Plain

  /** "error" or "exception" makes an error line, whatever else it holds; otherwise "warning" makes a warning line. */
  function Classify(line: string): LineKind {
    var lower := Lower(line);
    if Contains(lower, "error") || Contains(lower, "exception") then ErrorLine
    else if Contains(lower, "warning") then WarningLine
    else Plain
  }

  /** What the loop appends for the lines of `kind`, in order, each cut to `MaxLineLength`. */
  function Kept(lines: seq<string>, kind: LineKind): (r: seq<string>)
    ensures |r| <= |lines|
    ensures forall k :: 0 <= k < |r| ==> |r[k]| <= MaxLineLength
  {
    if lines == [] then []
    else
      var last := lines[|lines| - 1];
      Kept(lines[..|lines| - 1], kind)
        + if Classify(last) == kind then [SliceTo(last, MaxLineLength)] else []
  }

  /** The indices of the lines of `kind`, in increasing order. */
  function Positions(lines: seq<string>, kind: LineKind): (ps: seq<nat>)
    ensures forall k :: 0 <= k < |ps| ==> ps[k] < |lines| && Classify(lines[ps[k]]) == kind
    ensures forall k, m :: 0 <= k < m < |ps| ==> ps[k] < ps[m]
    ensures forall i :: 0 <= i < |lines| && Classify(lines[i]) == kind ==> i in ps
  {
    if lines == [] then []
    else
      var n := |lines| - 1;
      var front := Positions(lines[..n], kind);
      assert forall i :: 0 <= i < n ==> lines[..n][i] == lines[i];
      front + if Classify(lines[n]) == kind then [n] else []
  }

  /** The report analyze_logs returns for `logContent`. */
  function LogReport(logContent: string, maxLines: int): LogAnalysis {
    var lines := SplitLines(logContent);
    var errors := Kept(lines, ErrorLine);
    var warnings := Kept(lines, WarningLine);
    LogAnalysis(|errors|, |warnings|, SliceTo(errors, maxLines), SliceTo(warnings, maxLines))
  }

  /** analyze_logs, with its loop over the lines. */
  method AnalyzeLogs(logContent: string, maxLines: int) returns (r: LogAnalysis)
    ensures r == LogReport(logContent, maxLines)
  {
    var lines := SplitLines(logContent);
    var errors: seq<string> := [];
    var warnings: seq<string> := [];
    for i := 0 to |lines|
      invariant errors == Kept(lines[..i], ErrorLine)
      invariant warnings == Kept(lines[..i], WarningLine)
    {
      assert lines[..i + 1][..i] == lines[..i];
      var line := lines[i];
      var lineLower := Lower(line);
      if Contains(lineLower, "error") || Contains(lineLower, "exception") {
        errors := errors + [SliceTo(line, MaxLineLength)];
      } else if Contains(lineLower, "warning") {
        warnings := warnings + [SliceTo(line, MaxLineLength)];
      }
    }
    assert lines[..|lines|] == lines;
    r := LogAnalysis(|errors|, |warnings|, SliceTo(errors, maxLines), SliceTo(warnings, maxLines));
  }

  /** The kept lines are exactly the lines at `Positions`, each cut to its first `MaxLineLength` characters. */
  lemma {:induction false} KeptAtPositions(lines: seq<string>, kind: LineKind)
    ensures |Kept(lines, kind)| == |Positions(lines, kind)|
    ensures forall k :: 0 <= k < |Kept(lines, kind)| ==>
      Kept(lines, kind)[k] == SliceTo(lines[Positions(lines, kind)[k]], MaxLineLength)
  {
    if lines != [] {
      var n := |lines| - 1;
      KeptAtPositions(lines[..n], kind);
      var kept, ps := Kept(lines, kind), Positions(lines, kind);
      var front := Positions(lines[..n], kind);
      forall k | 0 <= k < |kept| ensures kept[k] == SliceTo(lines[ps[k]], MaxLineLength) {
        if k < |front| {
          assert ps[k] == front[k] && lines[..n][front[k]] == lines[front[k]];
        }
      }
    }
  }

  /** Every line is of exactly one kind, so the three lists together have one entry per line. */
  lemma {:induction false} KindsPartitionLines(lines: seq<string>)
    ensures |Kept(lines, ErrorLine)| + |Kept(lines, WarningLine)| + |Kept(lines, Plain)| == |lines|
  {
    if lines != [] {
      KindsPartitionLines(lines[..|lines| - 1]);
    }
  }

  /**
   * A line whose lower-cased text holds "error" or "exception" is listed as an
   * error line and never as a warning line, whether or not it also holds "warning".
   */
  lemma ErrorTakesPriority(lines: seq<string>, i: nat)
    requires i < |lines|
    requires Contains(Lower(lines[i]), "error") || Contains(Lower(lines[i]), "exception")
    ensures i in Positions(lines, ErrorLine)
    ensures i !in Positions(lines, WarningLine)
  {
  }

  lemma LowerIdempotent(s: string)
    ensures Lower(Lower(s)) == Lower(s)
  {
  }

  /** Classification ignores letter case: a line and its lower-cased form are of the same kind. */
  lemma ClassifyIgnoresCase(line: string)
    ensures Classify(Lower(line)) == Classify(line)
  {
    LowerIdempotent(line);
  }

  /**
   * The counts are the totals of error and warning lines; each list holds the
   * first `max_lines` of its kind in log order (all of them when `max_lines`
   * is at least the count, none when it is 0), each entry a prefix of its line
   * at most 300 characters long.
   */
  lemma ReportMeaning(logContent: string, maxLines: int)
    ensures var r := LogReport(logContent, maxLines);
      var lines := SplitLines(logContent);
      && r.errorCount == |Positions(lines, ErrorLine)|
      && r.warningCount == |Positions(lines, WarningLine)|
      && r.errorCount + r.warningCount <= |lines|
      && r.criticalErrors <= Kept(lines, ErrorLine)
      && r.warnings <= Kept(lines, WarningLine)
      && (maxLines >= 0 ==>
            |r.criticalErrors| == Min(maxLines, r.errorCount) && |r.warnings| == Min(maxLines, r.warningCount))
      && (forall k :: 0 <= k < |r.criticalErrors| ==>
            var line := lines[Positions(lines, ErrorLine)[k]];
            r.criticalErrors[k] <= line && |r.criticalErrors[k]| == Min(|line|, MaxLineLength))
      && (forall k :: 0 <= k < |r.warnings| ==>
            var line := lines[Positions(lines, WarningLine)[k]];
            r.warnings[k] <= line && |r.warnings[k]| == Min(|line|, MaxLineLength))
  {
    var lines := SplitLines(logContent);
    KeptAtPositions(lines, ErrorLine);
    KeptAtPositions(lines, WarningLine);
    KindsPartitionLines(lines);
  }

  /** An empty log gives zero counts and empty lists. */
  lemma EmptyLog(maxLines: int)
    ensures LogReport("", maxLines) == LogAnalysis(0, 0, [], [])
  {
  }

  /** Without a `max_lines` argument each list holds the first 50 lines of its kind, or all of them when there are fewer. */
  lemma DefaultLimit(logContent: string)
    ensures var r := LogReport(logContent, DefaultMaxLines);
      && |r.criticalErrors| == Min(50, r.errorCount) && r.criticalErrors <= Kept(SplitLines(logContent), ErrorLine)
      && |r.warnings| == Min(50, r.warningCount) && r.warnings <= Kept(SplitLines(logContent), WarningLine)
  {
  }

  const ExampleError := "ERROR: boom"
  const ExampleWarning := "Warning: low disk"
  const ExampleLog := ExampleError + "\n" + ExampleWarning + "\n" + "ok"

  lemma ExampleText()
    ensures Terminated([ExampleError, ExampleWarning]) + "ok" == ExampleLog
  {
    var e, w := ExampleError, ExampleWarning;
    assert Terminated([w]) == w + "\n" by {
      assert [w][1..] == [];
    }
    assert [e, w][1..] == [w];
    assert Terminated([e, w]) == e + "\n" + (w + "\n");
  }

  lemma ExampleLinesAreLines()
    ensures IsLine(ExampleError) && IsLine(ExampleWarning) && IsLine("ok")
  {
  }

  lemma ExampleLines()
    ensures SplitLines(ExampleLog) == [ExampleError, ExampleWarning, "ok"]
  {
    ExampleText();
    ExampleLinesAreLines();
    SplitTerminatedThen([ExampleError, ExampleWarning], "ok");
  }

  lemma ExampleErrorLine()
    ensures Classify(ExampleError) == ErrorLine
  {
    assert Lower(ExampleError)[..5] == "error";
  }

  lemma ExampleWarningHasNoE()
    ensures forall i :: 0 <= i < |Lower(ExampleWarning)| ==> Lower(ExampleWarning)[i] != 'e'
  {
    forall i | 0 <= i < |ExampleWarning| ensures ExampleWarning[i] != 'e' && ExampleWarning[i] != 'E' {
    }
  }

  lemma ExampleWarningLine()
    ensures Classify(ExampleWarning) == WarningLine
  {
    var lower := Lower(ExampleWarning);
    ExampleWarningHasNoE();
    AbsentFirstChar(lower, "error");
    AbsentFirstChar(lower, "exception");
    assert lower[..7] == "warning";
  }

  lemma ExamplePlainLine()
    ensures Classify("ok") == Plain
  {
    assert Lower("ok") == "ok";
  }

  lemma ExampleLinesShort()
    ensures SliceTo(ExampleError, MaxLineLength) == ExampleError
    ensures SliceTo(ExampleWarning, MaxLineLength) == ExampleWarning
  {
  }

  /** What `Kept` does with the example's three lines, given how each is classified. */
  lemma KeptThree(a: string, b: string, c: string, kind: LineKind)
    ensures Kept([a, b, c], kind) ==
      (if Classify(a) == kind then [SliceTo(a, MaxLineLength)] else [])
      + (if Classify(b) == kind then [SliceTo(b, MaxLineLength)] else [])
      + (if Classify(c) == kind then [SliceTo(c, MaxLineLength)] else [])
  {
    var lines := [a, b, c];
    assert lines[..2] == [a, b] && lines[..2][..1] == [a] && [a][..0] == [];
    assert Kept([a], kind) == (if Classify(a) == kind then [SliceTo(a, MaxLineLength)] else []);
    assert Kept([a, b], kind) == Kept([a], kind) + (if Classify(b) == kind then [SliceTo(b, MaxLineLength)] else []);
  }

  lemma ExampleKeptErrors()
    ensures Kept([ExampleError, ExampleWarning, "ok"], ErrorLine) == [ExampleError]
  {
    ExampleErrorLine();
    ExampleWarningLine();
    ExamplePlainLine();
    ExampleLinesShort();
    KeptThree(ExampleError, ExampleWarning, "ok", ErrorLine);
  }

  lemma ExampleKeptWarnings()
    ensures Kept([ExampleError, ExampleWarning, "ok"], WarningLine) == [ExampleWarning]
  {
    ExampleErrorLine();
    ExampleWarningLine();
    ExamplePlainLine();
    ExampleLinesShort();
    KeptThree(ExampleError, ExampleWarning, "ok", WarningLine);
  }

  /** One error line, one warning line and a plain line, reported with `max_lines` 1. */
  lemma ExampleReport()
    ensures LogReport(ExampleLog, 1) == LogAnalysis(1, 1, [ExampleError], [ExampleWarning])
  {
    ExampleLines();
    ExampleKeptErrors();
    ExampleKeptWarnings();
  }
}
