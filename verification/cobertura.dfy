/** parse_cobertura_xml: only the root's `line-rate` is read; the line totals stay 0. */
module Cobertura {
  import opened Wrappers
  import opened Numbers
  import opened Xml
  import opened Records

  /** parse_cobertura_xml: `float(root.get('line-rate', 0.0))`, with both line totals 0. */
  function ParseCoberturaXml(source: XmlSource): (r: Result<CoverageSummary, Failure>)
    ensures source.Missing? ==> r == Err(NotFound)
    ensures source.Unparsable? ==> r == Err(Malformed)
    ensures r.Ok? ==> r.value.totalLines == 0 && r.value.coveredLines == 0
    ensures source.Document? ==>
      var attrs := source.root.attrs;
      && (r.Ok? <==> "line-rate" !in attrs || IsFloatText(attrs["line-rate"]))
      && ("line-rate" !in attrs ==> r.Ok? && r.value.lineRate == Zero)
      && ("line-rate" in attrs && r.Ok? ==> r.value.lineRate == FloatOf(attrs["line-rate"]))
      && (r.Err? ==> r.error == BadNumber(attrs["line-rate"]))
  {
    match source
    case Missing => Err(NotFound)
    case Unparsable => Err(Malformed)
    case Document(root) =>
      if "line-rate" !in root.attrs then Ok(CoverageSummary(Zero, 0, 0))
      else
        var rate := root.attrs["line-rate"];
        if IsFloatText(rate) then Ok(CoverageSummary(FloatOf(rate), 0, 0)) else Err(BadNumber(rate))
  }

  /** A root with `line-rate="0.82"` gives a rate of 0.82 and zero line totals. */
  lemma LineRateExample(root: Element)
    requires root.attrs == map["line-rate" := "0.82"]
    ensures ParseCoberturaXml(Document(root)) == Ok(CoverageSummary(FloatOf("0.82"), 0, 0))
  {
    var rate := "0.82";
    assert OnlyDigitsAndDots(rate);
    assert AtMostOneDot(rate) && IsDigit(rate[0]);
    FloatTextOfDigitsAndDots(rate);
  }
}
