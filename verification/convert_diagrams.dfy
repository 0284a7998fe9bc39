/** `scripts/convert_diagrams_to_pdf.py`: each Mermaid block goes through
    two external steps, `mmdc` to SVG and `wkhtmltopdf` to PDF, whose
    outcomes are parameters. The HTML page of a diagram is written only
    after its SVG step succeeded. */
module DiagramsToPdf {
  import opened Strings
  import opened Mermaid

  const TITLE_PREFIX: string := "Real-Time Customer Interaction Flow - Diagram "

  /** The title placed in the HTML page of the diagram numbered `index`. */
  function HtmlTitle(index: nat): string
  {
    TITLE_PREFIX + NatToString(index)
  }

  /** Different diagrams get different page titles. */
  lemma HtmlTitlesDistinct(a: nat, b: nat)
    requires a != b
    ensures HtmlTitle(a) != HtmlTitle(b)
  {
    if HtmlTitle(a) == HtmlTitle(b) {
      assert NatToString(a) == HtmlTitle(a)[|TITLE_PREFIX|..];
      assert NatToString(b) == HtmlTitle(b)[|TITLE_PREFIX|..];
      NatToStringInjective(a, b);
    }
  }

  /** Both steps succeed. */
  function Both(svg: Diagram -> bool, pdf: Diagram -> bool): Diagram -> bool
  {
    d => svg(d) && pdf(d)
  }

  /** What a run leaves: the pages written, as (index, title), in order;
      how many PDFs were produced; and the script's verdict. */
  datatype Run = Run(pages: seq<(nat, string)>, successes: nat, converted: bool)

  /** `convert_to_pdf`: a diagram whose SVG step fails is skipped; the
      others get a page and a PDF attempt, and the run succeeds when one
      PDF was produced. */
  method ConvertToPdf(content: string, svg: Diagram -> bool, pdf: Diagram -> bool) returns (r: Run)
    ensures var ds := ExtractMermaidBlocks(content);
      && r.successes == CountWhere(ds, Both(svg, pdf))
      && (r.converted <==> exists k :: 0 <= k < |ds| && svg(ds[k]) && pdf(ds[k]))
      && |r.pages| == CountWhere(ds, svg)
      && r.successes <= |r.pages|
      && (forall j :: 0 <= j < |r.pages| ==> r.pages[j].1 == HtmlTitle(r.pages[j].0))
      && (forall k :: 0 <= k < |ds| ==> (svg(ds[k]) <==> (k + 1, HtmlTitle(k + 1)) in r.pages))
  {
    var ds := ExtractMermaidBlocks(content);
    var pages, successes := ConvertAll(ds, svg, pdf);
    r := Run(pages, successes, successes > 0);
  }

  /** The loop of `convert_to_pdf` over diagrams numbered from 1. */
  method ConvertAll(ds: seq<Diagram>, svg: Diagram -> bool, pdf: Diagram -> bool)
    returns (pages: seq<(nat, string)>, successes: nat)
    requires forall k :: 0 <= k < |ds| ==> ds[k].index == k + 1
    ensures successes == CountWhere(ds, Both(svg, pdf))
    ensures successes > 0 <==> exists k :: 0 <= k < |ds| && svg(ds[k]) && pdf(ds[k])
    ensures |pages| == CountWhere(ds, svg) && successes <= |pages|
    ensures forall j :: 0 <= j < |pages| ==> pages[j].1 == HtmlTitle(pages[j].0)
    ensures forall k :: 0 <= k < |ds| ==> (svg(ds[k]) <==> (k + 1, HtmlTitle(k + 1)) in pages)
  {
    pages := [];
    successes := 0;
    var i := 0;
    while i < |ds|
      invariant 0 <= i <= |ds|
      invariant successes == CountWhere(ds[..i], Both(svg, pdf))
      invariant |pages| == CountWhere(ds[..i], svg)
      invariant forall j :: 0 <= j < |pages| ==> 1 <= pages[j].0 <= i && pages[j].1 == HtmlTitle(pages[j].0)
      invariant forall k :: 0 <= k < i ==> (svg(ds[k]) <==> (k + 1, HtmlTitle(k + 1)) in pages)
    {
      assert ds[..i + 1][..i] == ds[..i];
      var d := ds[i];
      if svg(d) {
        pages := pages + [(d.index, HtmlTitle(d.index))];
        if pdf(d) {
          successes := successes + 1;
        }
      }
      i := i + 1;
    }
    assert ds[..|ds|] == ds;
    CountPositiveIffSome(ds, Both(svg, pdf));
    CountMonotone(ds, Both(svg, pdf), svg);
  }
}
