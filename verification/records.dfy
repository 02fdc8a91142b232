/** The four records the extractors return, and the ways an extraction fails. */
module Records {
  import opened Wrappers

  /**
   * A float that the model does not compute with: the literal 0.0 the parsers
   * default to, or the value `float(text)` of a text that float() accepts.
   */
  datatype FloatValue = Zero | FloatOf(text: string)

  /**
   * TestSummary. `time` is the left-to-right floating-point sum of `timeTerms`,
   * one term per processed suite.
   */
  datatype TestSummary = TestSummary(
    total: int,
    failures: int,
    errors: int,
    skipped: int,
    timeTerms: seq<FloatValue>,
    failedTestNames: seq<string>)

  datatype CoverageSummary = CoverageSummary(lineRate: FloatValue, totalLines: int, coveredLines: int)

  datatype SecurityConfig = SecurityConfig(faceThreshold: Option<FloatValue>, livenessMinFrames: Option<int>)

  datatype LogAnalysis = LogAnalysis(
    errorCount: int,
    warningCount: int,
    criticalErrors: seq<string>,
    warnings: seq<string>)

  /** The exceptions the extractors let escape. */
  datatype Failure =
    | NotFound              // FileNotFoundError: the artifact path does not exist
    | Malformed             // ET.ParseError, re-raised as ValueError
    | BadNumber(text: string)  // ValueError from int() or float() on this text
}
