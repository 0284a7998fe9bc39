/** `scripts/simple_pdf_converter.py`: every Mermaid block of a document
    is printed to PDF by a browser. Whether the browser printed a page is
    a parameter; the driver is started only when there is something to
    convert. */
module SimplePdfConverter {
  import opened Strings
  import opened Mermaid

  /** The title of the page a diagram is printed from. */
  function PageTitle(d: Diagram): string
  {
    "Diagram " + NatToString(d.index) + " - " + DiagramTitle(d.code)
  }

  /** What a run reports: whether a browser driver was started, how many
      diagrams were printed, and the script's verdict. */
  datatype Outcome = Outcome(driverStarted: bool, successes: nat, converted: bool)

  /** `convert_to_pdf`: nothing to convert is a failure without a driver;
      otherwise each diagram is tried once and the run succeeds when one
      of them printed. */
  method ConvertToPdf(content: string, printed: Diagram -> bool) returns (r: Outcome)
    ensures var ds := ExtractMermaidBlocks(content);
      && (r.driverStarted <==> |ds| > 0)
      && r.successes == CountWhere(ds, printed)
      && (r.converted <==> exists k :: 0 <= k < |ds| && printed(ds[k]))
  {
    var ds := ExtractMermaidBlocks(content);
    if |ds| == 0 {
      return Outcome(false, 0, false);
    }
    var successes := CountPrinted(ds, printed);
    CountPositiveIffSome(ds, printed);
    r := Outcome(true, successes, successes > 0);
  }

  /** The loop of `convert_to_pdf`: one attempt per diagram, counting the
      ones that printed. */
  method CountPrinted(ds: seq<Diagram>, printed: Diagram -> bool) returns (successes: nat)
    ensures successes == CountWhere(ds, printed)
    ensures successes > 0 <==> exists k :: 0 <= k < |ds| && printed(ds[k])
  {
    successes := 0;
    var i := 0;
    while i < |ds|
      invariant 0 <= i <= |ds|
      invariant successes == CountWhere(ds[..i], printed)
    {
      assert ds[..i + 1][..i] == ds[..i];
      if printed(ds[i]) {
        successes := successes + 1;
      }
      i := i + 1;
    }
    assert ds[..|ds|] == ds;
    CountPositiveIffSome(ds, printed);
  }
}
