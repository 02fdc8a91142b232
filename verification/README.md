# Fact extraction for the release gate, in Dafny

This project models the fact-extraction layer of a CI release-gate tool
(`src/tools/parsers.py`). That layer turns four kinds of build artifacts into
typed records:

- a JUnit XML test report becomes a `TestSummary`;
- a Cobertura XML coverage report becomes a `CoverageSummary`;
- a Python configuration file, read as plain text, becomes a `SecurityConfig`;
- a raw build log becomes a `LogAnalysis`.

The modules follow the source:

- `Records` holds the four records and the three ways an extraction fails:
  file not found, XML that does not parse, and a number that `int()` or
  `float()` rejects.
- `Xml` is the element tree the parsers walk.
- `JUnit` models `parse_junit_xml`. Its nested `process_suite` updates five
  counters of the enclosing call, so it is the class `Tally`, and the parse
  itself is a method with a loop.
- `Cobertura` models `parse_cobertura_xml`.
- `SecurityScan` models `read_security_config`. The file's characters are
  first put through the line-end translation that reading in text mode does
  (`Text.UniversalNewlines`). The `re.search` calls then become a scanning
  function, checked against a declarative account of where the pattern
  matches.
- `LogScan` models `analyze_logs`: a method with the source's loop, proved
  against the function `LogReport`.
- `Text` and `Numbers` hold the parts of Python's string and number handling
  that these functions rely on: `str.splitlines`, `str.lower`, `in`, slicing,
  `str.strip`, and the text grammars that `int()` and `float()` accept.

Floats are not computed with. A float is either the literal `0.0` default
(`Zero`) or `float(text)` of a text that `float()` accepts (`FloatOf(text)`).
The model does decide whether `float()` accepts a text, so the `ValueError`
path is modelled.

The model follows what the code does, including these points where it may
surprise a reader:

- A count attribute that `int()` cannot convert (`tests="abc"`) makes
  `parse_junit_xml` raise `ValueError`. It does not read as 0.
- `read_security_config` can fail. The face-threshold pattern captures
  `[0-9.]+`, so a capture such as `1.2.3` or `.` makes `float()` raise, and
  the whole read fails. The two fields are therefore not fully independent.
- "The first match" of the pattern `keyword.*=\s*(...)` is at the leftmost
  keyword occurrence that has such an `=` later on its line. A mention of
  the keyword on an earlier line without one is skipped: in
  `# face_detection_threshold tuning` followed by the line
  `face_detection_threshold = 0.4`, the threshold is `0.4`. At the chosen
  occurrence the greedy `.*` takes the last `=` on that line that is followed
  by a value: in `face_detection_threshold = 0.5  # was = 0.7` the threshold
  is `0.7`.
- The configuration file is opened in text mode, so `\r\n` and a lone `\r`
  both end a line before the search runs. A file whose lines end in `\r`
  therefore reads the same as one whose lines end in `\n`.
- `analyze_logs` itself puts no bound on the size of the log.

## Model

| member | source | states |
|---|---|---|
| JUnit.Tally.ProcessSuite | src/tools/parsers.py:54-66 | adds the suite's tests/failures/errors/skipped to the totals, appends one time term and the `classname::name` labels of the failed testcases (`Absorb`); the first attribute that does not convert is the failure |
| JUnit.Tally.AppendFailedCases | src/tools/parsers.py:62-66 | appends `FailedLabels` of the testcases (the labels of those with a `failure` or `error` child, in order) and leaves the counters unchanged |
| JUnit.Tally.constructor | src/tools/parsers.py:47-52 | the counters start at zero with no time terms and no failed names |
| JUnit.Tally.ProcessSuites | src/tools/parsers.py:68-70 | from fresh counters, the loop over the `testsuite` children ends with the counters at `Accumulate` of the suites, or stops with the failure `Accumulate` reports |
| JUnit.ParseJUnitXml | src/tools/parsers.py:35-83 | the result equals `JUnitReport`: a missing file is NotFound, unparsable XML is Malformed, and a root that is neither `testsuites` nor `testsuite` gives an all-zero summary |
| JUnit.AccumulateStopsAtFailure | src/tools/parsers.py:68-70 | once a suite fails to convert, the remaining suites do not change the outcome |
| JUnit.AccumulateWellFormed | src/tools/parsers.py:54-70 | when every suite converts, each total is the sum of that attribute over the suites, there is one time term per suite in order, and the failed names are the labels of all failed testcases in document order |
| JUnit.AccumulateFailure | src/tools/parsers.py:56-60 | the parse fails exactly when some suite has an attribute that does not convert, and the error is that of the first such suite |
| JUnit.WrapperRootTotals | src/tools/parsers.py:68-70 | under a `testsuites` root, the summary is the sum over its direct `testsuite` children |
| JUnit.SuiteRootTotals | src/tools/parsers.py:71-72 | a `testsuite` root is itself the only suite: its own counts, one time term, and its own failed testcases |
| JUnit.FailedLabelsAreLabels | src/tools/parsers.py:62-66 | the testcase loop appends exactly the labels of the testcases that have a `failure` or `error` child, in order |
| JUnit.TwoSuitesExample | src/tools/parsers.py:68-81 | suites with tests 5 and 3 and failures 1 and 0 give total 8, failures 1, no failed names |
| Xml.FindAll | src/tools/parsers.py:62 | `findall` lists a child exactly when it is a direct child with the tag |
| Xml.FindAllInOrder | src/tools/parsers.py:62 | `findall` lists the children with the tag once each, in document order: its k-th entry is the child at the k-th index carrying the tag |
| Xml.TagIndices | src/tools/parsers.py:62 | the indices of the children with the tag, increasing, and every such child's index among them |
| Cobertura.ParseCoberturaXml | src/tools/parsers.py:85-103 | missing file is NotFound and unparsable XML is Malformed; line totals are always 0; the read succeeds exactly when `line-rate` is absent (rate 0.0) or a text `float()` accepts, which is then the rate; otherwise it fails on that text |
| Cobertura.LineRateExample | src/tools/parsers.py:96-100 | `line-rate="0.82"` gives rate 0.82 and zero totals |
| SecurityScan.FindMatch | src/tools/parsers.py:116-117 | the match reported is a real match of `keyword.*=\s*[class]`; no match starts further left, and at the same start none has its `=` further right; None only when nothing matches |
| SecurityScan.CaptureAfter | src/tools/parsers.py:120-121 | `group(1)` is a non-empty run of the value class directly after the whitespace following the `=`, and cannot be extended |
| SecurityScan.SearchIsLeftmostGreedy | src/tools/parsers.py:116-117 | the search finds nothing exactly when the pattern matches nowhere; otherwise it returns the capture of the leftmost, then rightmost-`=` match |
| SecurityScan.ReadSecurityConfig | src/tools/parsers.py:110-111 | a missing file gives both fields absent |
| SecurityScan.LivenessField | src/tools/parsers.py:117-121 | over the text as read, the frame count is absent exactly when its pattern matches nowhere, and is otherwise `int()` of the chosen match's digits |
| SecurityScan.FaceField | src/tools/parsers.py:116-120 | over the text as read, the read fails exactly when a face capture has two dots or no digit, and fails on that text; otherwise the threshold is absent exactly when nothing matches, and is the float of the chosen capture |
| SecurityScan.AbsentKeyword | src/tools/parsers.py:116-121 | a text without the keyword leaves the field absent |
| SecurityScan.AssignmentOnFirstLine | src/tools/parsers.py:116-117 | a text whose first line is `keyword = value` captures exactly the value, whatever lines follow |
| SecurityScan.FaceOnlyExample | src/tools/parsers.py:113-122 | `face_detection_threshold = 0.6` alone gives threshold 0.6 and no frame count |
| SecurityScan.TwoCrLines | src/tools/parsers.py:113-114 | two lines each ended by a lone `\r` read as the same two lines each ended by `\n` |
| SecurityScan.CrLineEndsExample | src/tools/parsers.py:113-122 | a file `face_detection_threshold = 0.5`, `\r`, `# note = 0.9`, `\r` gives threshold 0.5, not 0.9, and no frame count |
| LogScan.AnalyzeLogs | src/tools/parsers.py:124-144 | the loop's result equals `LogReport` of the content and `max_lines` |
| LogScan.Positions | src/tools/parsers.py:132-137 | the indices it lists are increasing, each names a line of the kind, and every line of the kind is listed |
| LogScan.Kept | src/tools/parsers.py:135-137 | no more entries than lines, each at most 300 characters |
| LogScan.KeptAtPositions | src/tools/parsers.py:132-137 | the kept lines are exactly the lines of the kind, in log order, each cut to its first 300 characters |
| LogScan.KindsPartitionLines | src/tools/parsers.py:134-137 | every line is exactly one of error, warning or neither |
| LogScan.ErrorTakesPriority | src/tools/parsers.py:134-137 | a line whose lower-cased text contains "error" or "exception" is among the error-line positions and never among the warning-line positions, whether or not it also contains "warning" |
| LogScan.ClassifyIgnoresCase | src/tools/parsers.py:133 | a line and its lower-cased form are classified alike |
| LogScan.ReportMeaning | src/tools/parsers.py:139-144 | the counts are the totals of error and warning lines, at most the number of lines; each list is a prefix of its kind's lines of length min(max_lines, count) when max_lines >= 0; each entry is a prefix of its line of length min(line length, 300) |
| LogScan.DefaultLimit | src/tools/parsers.py:124 | without a `max_lines` argument, each list holds min(50, count) entries and is a prefix of all kept lines of its kind |
| LogScan.EmptyLog | src/tools/parsers.py:124-144 | an empty log gives zero counts and empty lists |
| LogScan.ExampleReport | src/tools/parsers.py:128-144 | `"ERROR: boom\nWarning: low disk\nok"` with max_lines 1 gives one error line and one warning line |
| Text.ContainsIff | src/tools/parsers.py:134 | `pat in s` holds exactly when `pat` occurs at some position of `s` |
| Text.SliceTo | src/tools/parsers.py:142-143 | `s[:k]` is a prefix of `s` of length min(k, len(s)) for k >= 0, and max(0, len(s)+k) for negative k |
| Text.Lower | src/tools/parsers.py:133 | same length; every character lower-cased |
| Text.SplitLines | src/tools/parsers.py:128 | the lines contain no line boundary |
| Text.SplitTerminated | src/tools/parsers.py:128 | `splitlines` recovers the lines written one per `\n` |
| Text.SplitTerminatedThen | src/tools/parsers.py:128 | the same when a last line without a line end follows |
| Text.SplitCrlfTerminated | src/tools/parsers.py:128 | `splitlines` also recovers the lines written one per `\r\n` |
| Text.NoCrAfterTranslation | src/tools/parsers.py:113-114 | after reading in text mode no `\r` is left |
| Text.TranslationKeepsPlainText | src/tools/parsers.py:113-114 | a text without `\r` reads unchanged |
| Text.CrlfTranslated | src/tools/parsers.py:113-114 | a line ended by `\r\n` reads as the same line ended by one `\n` |
| Text.CrTranslated | src/tools/parsers.py:113-114 | a line ended by a `\r` that no `\n` follows reads as the same line ended by `\n` |
| Text.Strip | src/tools/parsers.py:56-59 | the stripped text neither starts nor ends with whitespace, and a text without whitespace is unchanged |
| Text.StripCutsOnlyEnds | src/tools/parsers.py:56-59 | the stripped text is the slice `s[a:b]` of the input with only whitespace before `a` and after `b` |
| Numbers.ParseIntRoundTrip | src/tools/parsers.py:56-59 | `int()` of the decimal text of any integer gives back that integer |
| Numbers.ParseIntOfDigits | src/tools/parsers.py:121 | `int()` of a non-empty run of digits is its decimal value |
| Numbers.FloatTextOfDigitsAndDots | src/tools/parsers.py:120 | `float()` accepts a text of digits and dots exactly when it is non-empty, has at most one dot and has a digit |
| Numbers.NatDigitsValue | src/tools/parsers.py:56-59 | the decimal digits of a natural number read back as that number |

## Left out

- File I/O: whether the path exists, reading it, and XML tokenizing are inputs here. An artifact is `Missing`, `Unparsable` or a parsed `Document`, and a configuration file is `None` or its characters as stored; the line-end translation of text mode is modelled. UTF-8 decoding, and decoding errors on reading the configuration file, are not modelled.
- Floating-point arithmetic: `time` is kept as the list of summed terms (`timeTerms`), in order, since a float sum depends on the order of its terms and `line_rate` as its text. Which texts `float()` accepts is modelled, but not their values.
- Unicode: `str.lower()` is modelled on ASCII letters only. `int()` and `\d` also accept non-ASCII decimal digits, which the model does not.
- Numbers.ParseInt: does not model CPython's limit of 4300 digits for `int()` on a str (`sys.int_max_str_digits`). A count attribute or a liveness capture longer than that raises `ValueError` in the source but converts in the model.
- Numbers.IsFloatText: accepts ASCII digits only. `float()` also accepts other Unicode decimal digits, so a `time` or `line-rate` attribute such as `٣.٥` converts in the source and fails in the model. The configuration capture `[0-9.]+` is ASCII in both.
- Pydantic validation of the records is not modelled; the model's record types carry the fields directly.
- The tool gateway (`src/server.py`) and the decision client (`src/client.py`) are not part of this model. They are dispatch, JSON framing, process I/O and calls to an external text service.
