/** What the two diagram scripts (`scripts/simple_pdf_converter.py` and
    `scripts/convert_diagrams_to_pdf.py`) share: finding the Mermaid
    blocks of a Markdown document, naming a diagram after its first header
    line, and counting the diagrams a step converted.

    The blocks are found by one regular expression over the whole text: an
    opening fence, greedy whitespace (newlines included), a newline, a lazy
    body, and a newline followed by a closing fence. The model reads the
    document line by line: an opening line ends in `` ```mermaid `` (then
    only whitespace), the blank lines after it are swallowed by the
    whitespace, and the body runs up to the next line that starts with
    `` ``` ``, so a line starting with `` ``` `` right after the swallowed
    blank lines is itself body when a later closing line exists. The match
    ends after the closing line's three backticks, so the search resumes on
    the rest of that line. */
module Mermaid {
  import opened Strings
  import opened Wrappers

  const OPEN_FENCE: string := "```mermaid"
  const FENCE: string := "```"

  /** A line the opening of the pattern matches: it ends in the opening
      fence, followed by nothing but whitespace. */
  predicate IsOpening(line: string)
  {
    var t := StripRight(line, IsSpace);
    |t| >= |OPEN_FENCE| && t[|t| - |OPEN_FENCE|..] == OPEN_FENCE
  }

  /** A line the closing `\n```` of the pattern matches. */
  predicate IsClosing(line: string)
  {
    StartsWith(line, FENCE)
  }

  /** A line the whitespace after the opening fence can swallow whole. */
  predicate IsBlank(line: string)
  {
    forall i :: 0 <= i < |line| ==> IsSpace(line[i])
  }

  /** The lines from the first non-blank one on. */
  function SkipBlankLines(lines: seq<string>): (r: seq<string>)
    ensures |r| <= |lines|
    decreases |lines|
  {
    if |lines| > 0 && IsBlank(lines[0]) then SkipBlankLines(lines[1..]) else lines
  }

  /** What is skipped is a run of blank lines, and what is kept is the rest
      of the lines, from a non-blank one on. */
  lemma {:induction false} SkipBlankLinesIsSuffix(lines: seq<string>)
    ensures var r := SkipBlankLines(lines);
      && r == lines[|lines| - |r|..]
      && (|r| > 0 ==> !IsBlank(r[0]))
      && forall m :: 0 <= m < |lines| - |r| ==> IsBlank(lines[m])
    decreases |lines|
  {
    if |lines| > 0 && IsBlank(lines[0]) {
      SkipBlankLinesIsSuffix(lines[1..]);
      var r := SkipBlankLines(lines[1..]);
      assert lines[1..][|lines| - 1 - |r|..] == lines[|lines| - |r|..];
      assert forall m :: 1 <= m < |lines| - |r| ==> lines[m] == lines[1..][m - 1];
    }
  }

  /** The first closing line at or after `j`, or `|lines|` if there is none. */
  function FirstClosing(lines: seq<string>, j: nat): (k: nat)
    requires j <= |lines|
    ensures j <= k <= |lines|
    ensures k < |lines| ==> IsClosing(lines[k])
    ensures forall m :: j <= m < k ==> !IsClosing(lines[m])
    decreases |lines| - j
  {
    if j == |lines| then j
    else if IsClosing(lines[j]) then j
    else FirstClosing(lines, j + 1)
  }

  /** One match of the pattern: the body's lines, and the lines the search
      resumes on (the closing line from after its three backticks, then
      the rest of the document). */
  datatype Match = Match(body: seq<string>, rest: seq<string>)

  /** The match that starts at the opening line `lines[0]`, if any. The
      greedy whitespace backs off to the start of the first non-blank line
      `t[0]`, and the lazy body runs from there to the first closing line
      after it. When there is no such line but `t[0]` itself closes and at
      least one blank line was swallowed, the whitespace backs off one line
      more and the body is that blank line. */
  function MatchAt(lines: seq<string>): (m: Option<Match>)
    requires |lines| >= 1
    ensures m.Some? ==> IsOpening(lines[0]) && |m.value.body| >= 1 && |m.value.rest| < |lines|
    ensures m.Some? ==> forall j :: 1 <= j < |m.value.body| ==> !IsClosing(m.value.body[j])
  {
    if !IsOpening(lines[0]) then None
    else
      var t := SkipBlankLines(lines[1..]);
      if |t| >= 1 && FirstClosing(t, 1) < |t| then
        var k := FirstClosing(t, 1);
        Some(Match(t[..k], [t[k][|FENCE|..]] + t[k + 1..]))
      else if |t| >= 1 && |t| < |lines| - 1 && IsClosing(t[0]) then
        Some(Match([lines[|lines| - |t| - 1]], [t[0][|FENCE|..]] + t[1..]))
      else None
  }

  /** The bodies of the fenced blocks, in document order: where a match
      starts, its body, then the search resumes after it; elsewhere the
      search moves on by one line. */
  function Bodies(lines: seq<string>): (r: seq<seq<string>>)
    ensures forall k :: 0 <= k < |r| ==> |r[k]| >= 1
    decreases |lines|
  {
    if |lines| == 0 then []
    else match MatchAt(lines)
      case Some(m) => [m.body] + Bodies(m.rest)
      case None => Bodies(lines[1..])
  }

  /** One extracted diagram: its position counted from 1, its stripped
      code and its file stem. */
  datatype Diagram = Diagram(index: nat, code: string, name: string)

  function DiagramName(index: nat): string
  {
    "diagram_" + NatToString(index)
  }

  /** A block's code: its lines joined back and stripped. */
  function CodeOf(body: seq<string>): string
  {
    Strip(Join(body, "\n"))
  }

  /** The diagrams numbered from 1, one per body in order. */
  function Number(bodies: seq<seq<string>>): (r: seq<Diagram>)
    ensures |r| == |bodies|
    ensures forall k :: 0 <= k < |r| ==> r[k] == Diagram(k + 1, CodeOf(bodies[k]), DiagramName(k + 1))
  {
    seq(|bodies|, k requires 0 <= k < |bodies| => Diagram(k + 1, CodeOf(bodies[k]), DiagramName(k + 1)))
  }

  /** `extract_mermaid_blocks` on the text of the input file. */
  function ExtractMermaidBlocks(content: string): (r: seq<Diagram>)
    ensures var bodies := Bodies(Split(content, '\n'));
      && |r| == |bodies|
      && forall k :: 0 <= k < |r| ==> r[k].index == k + 1 && r[k].name == DiagramName(k + 1) && r[k].code == CodeOf(bodies[k])
  {
    Number(Bodies(Split(content, '\n')))
  }

  /** Two diagrams of one document never share a file stem. */
  lemma DiagramNamesDistinct(content: string, i: nat, j: nat)
    requires i < j < |ExtractMermaidBlocks(content)|
    ensures ExtractMermaidBlocks(content)[i].name != ExtractMermaidBlocks(content)[j].name
  {
    var ds := ExtractMermaidBlocks(content);
    if ds[i].name == ds[j].name {
      var p := "diagram_";
      assert NatToString(i + 1) == ds[i].name[|p|..];
      assert NatToString(j + 1) == ds[j].name[|p|..];
      NatToStringInjective(i + 1, j + 1);
    }
  }

  // ------------------------------------------------- documents, rebuilt

  /** A document as a writer lays it out: runs of prose lines and fenced
      Mermaid blocks. */
  datatype Part = Prose(lines: seq<string>) | Fenced(body: seq<string>)

  function RenderPart(p: Part): seq<string>
  {
    match p
    case Prose(ls) => ls
    case Fenced(b) => [OPEN_FENCE] + b + [FENCE]
  }

  /** The lines of the document. */
  function Render(parts: seq<Part>): seq<string>
    decreases |parts|
  {
    if |parts| == 0 then [] else RenderPart(parts[0]) + Render(parts[1..])
  }

  /** The bodies the writer fenced, in order. */
  function FencedBodies(parts: seq<Part>): seq<seq<string>>
    decreases |parts|
  {
    if |parts| == 0 then []
    else if parts[0].Fenced? then [parts[0].body] + FencedBodies(parts[1..])
    else FencedBodies(parts[1..])
  }

  /** Prose that opens no block, and blocks with at least one non-blank
      line and no line that could close them early. */
  predicate WellFormed(parts: seq<Part>)
  {
    forall i :: 0 <= i < |parts| ==>
      match parts[i]
      case Prose(ls) => forall j :: 0 <= j < |ls| ==> !IsOpening(ls[j])
      case Fenced(b) => |SkipBlankLines(b)| >= 1 && forall j :: 0 <= j < |b| ==> !IsClosing(b[j])
  }

  lemma {:induction false} ProseIsSkipped(ls: seq<string>, rest: seq<string>)
    requires forall j :: 0 <= j < |ls| ==> !IsOpening(ls[j])
    ensures Bodies(ls + rest) == Bodies(rest)
    decreases |ls|
  {
    if |ls| > 0 {
      ProseIsSkipped(ls[1..], rest);
      var lines := ls + rest;
      assert lines[0] == ls[0];
      assert MatchAt(lines) == None;
      TailOfAppend(ls, rest);
    } else {
      assert ls + rest == rest;
    }
  }

  lemma SkipBlankLinesStep(b: seq<string>)
    requires |b| > 0 && IsBlank(b[0])
    ensures SkipBlankLines(b) == SkipBlankLines(b[1..])
  {
  }

  lemma TailOfAppend(b: seq<string>, x: seq<string>)
    requires |b| > 0
    ensures (b + x)[1..] == b[1..] + x
  {
  }

  /** Skipping blank lines stops inside `b` when `b` has a non-blank line. */
  lemma {:induction false} SkipBlankLinesAppend(b: seq<string>, x: seq<string>)
    requires |SkipBlankLines(b)| >= 1
    ensures SkipBlankLines(b + x) == SkipBlankLines(b) + x
    decreases |b|
  {
    var bx := b + x;
    assert bx[0] == b[0];
    if IsBlank(b[0]) {
      SkipBlankLinesStep(b);
      SkipBlankLinesStep(bx);
      TailOfAppend(b, x);
      SkipBlankLinesAppend(b[1..], x);
    } else {
      assert SkipBlankLines(b) == b;
      assert SkipBlankLines(bx) == bx;
    }
  }

  /** The blank lines the whitespace swallows do not change a block's code. */
  lemma {:induction false} CodeSkipsBlankLines(b: seq<string>)
    requires |SkipBlankLines(b)| >= 1
    ensures CodeOf(SkipBlankLines(b)) == CodeOf(b)
    decreases |b|
  {
    if IsBlank(b[0]) {
      SkipBlankLinesStep(b);
      CodeSkipsBlankLines(b[1..]);
      var w := b[0] + "\n";
      BlankLineIsSpace(b[0]);
      var s := Join(b[1..], "\n");
      JoinCons(b[0], b[1..], "\n");
      assert [b[0]] + b[1..] == b;
      assert Join(b, "\n") == w + s;
      StripLeftSkipsSpace(w, s);
    }
  }

  /** A blank line and the newline after it are all whitespace. */
  lemma BlankLineIsSpace(line: string)
    requires IsBlank(line)
    ensures forall i :: 0 <= i < |line + "\n"| ==> IsSpace((line + "\n")[i])
  {
    var w := line + "\n";
    forall i | 0 <= i < |w|
      ensures IsSpace(w[i])
    {
      if i < |line| {
        assert w[i] == line[i];
      }
    }
  }

  lemma {:induction false} StripLeftSkipsSpace(w: string, s: string)
    requires forall i :: 0 <= i < |w| ==> IsSpace(w[i])
    ensures StripLeft(w + s, IsSpace) == StripLeft(s, IsSpace)
    decreases |w|
  {
    if |w| > 0 {
      StripLeftSkipsSpace(w[1..], s);
      assert (w + s)[1..] == w[1..] + s;
      assert (w + s)[0] == w[0];
    } else {
      assert w + s == s;
    }
  }

  lemma NoClosingAfterSkip(b: seq<string>)
    requires forall j :: 0 <= j < |b| ==> !IsClosing(b[j])
    ensures forall j :: 0 <= j < |SkipBlankLines(b)| ==> !IsClosing(SkipBlankLines(b)[j])
  {
    var u := SkipBlankLines(b);
    SkipBlankLinesIsSuffix(b);
    forall j | 0 <= j < |u|
      ensures !IsClosing(u[j])
    {
      assert u[j] == b[|b| - |u| + j];
    }
  }

  /** What follows an opening line, once its blank lines are skipped. */
  lemma AfterOpening(b: seq<string>, tail: seq<string>)
    requires |SkipBlankLines(b)| >= 1
    ensures SkipBlankLines(([OPEN_FENCE] + b + tail)[1..]) == SkipBlankLines(b) + tail
  {
    TailOfAppend([OPEN_FENCE], b + tail);
    assert [OPEN_FENCE] + b + tail == [OPEN_FENCE] + (b + tail);
    SkipBlankLinesAppend(b, tail);
  }

  /** After a body free of closing lines, the fence closes it. */
  lemma FenceClosesBody(u: seq<string>, rest: seq<string>)
    requires |u| >= 1 && forall j :: 0 <= j < |u| ==> !IsClosing(u[j])
    ensures var t := u + ([FENCE] + rest);
      && FirstClosing(t, 1) == |u|
      && t[..|u|] == u
      && [t[|u|][|FENCE|..]] + t[|u| + 1..] == [""] + rest
  {
    var t := u + ([FENCE] + rest);
    assert forall m :: 1 <= m < |u| ==> t[m] == u[m];
    assert t[|u|] == FENCE;
    assert FENCE[|FENCE|..] == "";
    assert t[|u| + 1..] == rest;
  }

  /** At an opening line whose skipped remainder has a closing line after
      its first line, the match runs up to that closing line. */
  lemma MatchAtClosed(lines: seq<string>, t: seq<string>, k: nat)
    requires |lines| >= 1 && IsOpening(lines[0])
    requires t == SkipBlankLines(lines[1..]) && |t| >= 1
    requires 1 <= k < |t| && FirstClosing(t, 1) == k
    ensures MatchAt(lines) == Some(Match(t[..k], [t[k][|FENCE|..]] + t[k + 1..]))
  {
  }

  lemma OpenFenceOpens()
    ensures IsOpening(OPEN_FENCE)
  {
    assert StripRight(OPEN_FENCE, IsSpace) == OPEN_FENCE;
  }

  /** The match at the opening line of a fenced block, with the closing
      fence and what follows kept together as one tail. */
  lemma FenceMatchesTail(b: seq<string>, tail: seq<string>, rest: seq<string>)
    requires |SkipBlankLines(b)| >= 1 && forall j :: 0 <= j < |b| ==> !IsClosing(b[j])
    requires tail == [FENCE] + rest
    ensures MatchAt([OPEN_FENCE] + b + tail) == Some(Match(SkipBlankLines(b), [""] + rest))
  {
    var lines := [OPEN_FENCE] + b + tail;
    var u := SkipBlankLines(b);
    var t := u + tail;
    assert IsOpening(lines[0]) by { OpenFenceOpens(); }
    assert t == SkipBlankLines(lines[1..]) by { AfterOpening(b, tail); }
    assert FirstClosing(t, 1) == |u| && t[..|u|] == u && [t[|u|][|FENCE|..]] + t[|u| + 1..] == [""] + rest by {
      NoClosingAfterSkip(b);
      FenceClosesBody(u, rest);
    }
    MatchAtClosed(lines, t, |u|);
  }

  /** The match at the opening line of a fenced block with a non-blank line
      and no early closing line. */
  lemma FenceMatches(b: seq<string>, rest: seq<string>)
    requires |SkipBlankLines(b)| >= 1 && forall j :: 0 <= j < |b| ==> !IsClosing(b[j])
    ensures MatchAt([OPEN_FENCE] + b + [FENCE] + rest) == Some(Match(SkipBlankLines(b), [""] + rest))
  {
    FenceMatchesTail(b, [FENCE] + rest, rest);
    assert [OPEN_FENCE] + b + ([FENCE] + rest) == [OPEN_FENCE] + b + [FENCE] + rest;
  }

  /** A fenced block with a non-blank line and no early closing line comes
      out as its lines from the first non-blank one on, and the search
      goes on after its closing fence. */
  lemma FenceIsExtracted(b: seq<string>, rest: seq<string>)
    requires |SkipBlankLines(b)| >= 1 && forall j :: 0 <= j < |b| ==> !IsClosing(b[j])
    ensures Bodies([OPEN_FENCE] + b + [FENCE] + rest) == [SkipBlankLines(b)] + Bodies(rest)
  {
    FenceMatches(b, rest);
    assert !IsOpening("");
    ProseIsSkipped([""], rest);
  }

  lemma WellFormedTail(parts: seq<Part>)
    requires |parts| > 0 && WellFormed(parts)
    ensures WellFormed(parts[1..])
  {
    forall i | 0 <= i < |parts[1..]|
      ensures match parts[1..][i]
        case Prose(ls) => forall j :: 0 <= j < |ls| ==> !IsOpening(ls[j])
        case Fenced(b) => |SkipBlankLines(b)| >= 1 && forall j :: 0 <= j < |b| ==> !IsClosing(b[j])
    {
      assert parts[1..][i] == parts[i + 1];
    }
  }

  /** The first part of a well-formed document adds its own body, if it
      has one, in front of the bodies of the rest. */
  lemma PartIsRendered(parts: seq<Part>)
    requires |parts| > 0 && WellFormed(parts)
    ensures Bodies(Render(parts)) ==
      (if parts[0].Fenced? then [SkipBlankLines(parts[0].body)] else []) + Bodies(Render(parts[1..]))
  {
    var rest := Render(parts[1..]);
    match parts[0]
    case Prose(ls) =>
      assert Render(parts) == ls + rest;
      ProseIsSkipped(ls, rest);
    case Fenced(b) =>
      assert Render(parts) == [OPEN_FENCE] + b + [FENCE] + rest;
      FenceIsExtracted(b, rest);
  }

  /** Each body from its first non-blank line on. */
  function SkipBlankHeads(bodies: seq<seq<string>>): (r: seq<seq<string>>)
    ensures |r| == |bodies|
  {
    seq(|bodies|, k requires 0 <= k < |bodies| => SkipBlankLines(bodies[k]))
  }

  lemma SkipBlankHeadsCons(b: seq<string>, bodies: seq<seq<string>>)
    ensures SkipBlankHeads([b] + bodies) == [SkipBlankLines(b)] + SkipBlankHeads(bodies)
  {
    var l := SkipBlankHeads([b] + bodies);
    var r := [SkipBlankLines(b)] + SkipBlankHeads(bodies);
    forall k | 0 <= k < |l|
      ensures l[k] == r[k]
    {
      if k > 0 {
        assert ([b] + bodies)[k] == bodies[k - 1];
      }
    }
  }

  /** Extraction gives back the bodies the writer fenced, each from its
      first non-blank line on. */
  lemma {:induction false} BodiesOfRendered(parts: seq<Part>)
    requires WellFormed(parts)
    ensures Bodies(Render(parts)) == SkipBlankHeads(FencedBodies(parts))
    decreases |parts|
  {
    if |parts| > 0 {
      WellFormedTail(parts);
      BodiesOfRendered(parts[1..]);
      PartIsRendered(parts);
      if parts[0].Fenced? {
        SkipBlankHeadsCons(parts[0].body, FencedBodies(parts[1..]));
      }
    }
  }

  lemma {:induction false} FencedBodiesAreWellFormed(parts: seq<Part>, k: nat)
    requires WellFormed(parts) && k < |FencedBodies(parts)|
    ensures |SkipBlankLines(FencedBodies(parts)[k])| >= 1
    decreases |parts|
  {
    WellFormedTail(parts);
    if parts[0].Fenced? {
      if k > 0 {
        FencedBodiesAreWellFormed(parts[1..], k - 1);
      }
    } else {
      FencedBodiesAreWellFormed(parts[1..], k);
    }
  }

  /** At an opening line whose skipped remainder starts with a closing line
      and has no later one, the whitespace backs off to the last blank
      line, which becomes the body. */
  lemma MatchAtBackOff(lines: seq<string>, t: seq<string>)
    requires |lines| >= 1 && IsOpening(lines[0])
    requires t == SkipBlankLines(lines[1..]) && 1 <= |t| < |lines| - 1
    requires FirstClosing(t, 1) == |t| && IsClosing(t[0])
    ensures MatchAt(lines) == Some(Match([lines[|lines| - |t| - 1]], [t[0][|FENCE|..]] + t[1..]))
  {
  }

  /** An opening line, one blank line and a closing line that is not blank:
      the blank line is the body. */
  lemma BlankBodyAlone(o: string, b: string, c: string)
    requires IsOpening(o) && IsBlank(b) && IsClosing(c) && !IsBlank(c)
    ensures MatchAt([o, b, c]) == Some(Match([b], [c[|FENCE|..]]))
  {
    var lines := [o, b, c];
    assert lines[1..] == [b, c];
    assert [b, c][1..] == [c];
    assert [c][1..] == [];
    assert lines[|lines| - 1 - 1] == b;
    assert SkipBlankLines([c]) == [c];
    assert SkipBlankLines([b, c]) == [c];
    assert FirstClosing([c], 1) == 1;
    MatchAtBackOff(lines, [c]);
    assert [c[|FENCE|..]] + [c][1..] == [c[|FENCE|..]];
  }

  /** An opening line, one blank line, and a closing line followed by a
      line that also starts with the fence: the closing line is the body,
      and the search resumes after the fence of the next line. */
  lemma BlankBodySwallowed(o: string, b: string, c: string, o2: string, rest: seq<string>)
    requires IsOpening(o) && IsBlank(b) && !IsBlank(c) && IsClosing(o2)
    ensures MatchAt([o, b, c, o2] + rest) == Some(Match([c], [o2[|FENCE|..]] + rest))
  {
    var lines := [o, b, c, o2] + rest;
    var t := [c, o2] + rest;
    assert lines[0] == o;
    assert lines[1..] == [b] + t;
    assert ([b] + t)[1..] == t;
    assert SkipBlankLines(t) == t;
    assert SkipBlankLines([b] + t) == t;
    assert t[1] == o2;
    assert FirstClosing(t, 1) == 1;
    assert t[..1] == [c];
    assert t[2..] == rest;
    MatchAtClosed(lines, t, 1);
  }

  /** Lines none of which opens a block contribute no block. */
  lemma NoOpeningNoBodies(lines: seq<string>)
    requires forall j :: 0 <= j < |lines| ==> !IsOpening(lines[j])
    ensures Bodies(lines) == []
  {
    ProseIsSkipped(lines, []);
    assert lines + [] == lines;
  }

  /** A line shorter than the opening fence opens nothing. */
  lemma ShortLine(line: string)
    requires |line| < |OPEN_FENCE|
    ensures !IsOpening(line)
  {
  }

  lemma BacktickLine(line: string)
    requires StartsWith(line, FENCE)
    ensures IsClosing(line) && !IsBlank(line)
  {
    assert !IsSpace(line[0]);
  }

  /** A block with nothing but blank lines is not given back: its whitespace
      runs on to the next fence, and the lazy body then reaches the closing
      line after it. Here the writer's two blocks come out as one diagram
      whose code is the first block's closing fence. */
  lemma BlankBlockSwallowsNext()
    ensures var parts := [Fenced([""]), Fenced(["graph TD"])];
      && Render(parts) == ["```mermaid", "", "```", "```mermaid", "graph TD", "```"]
      && |FencedBodies(parts)| == 2
      && Bodies(Render(parts)) == [["```"]]
      && Number(Bodies(Render(parts))) == [Diagram(1, "```", DiagramName(1))]
  {
    SwallowedRender();
    SwallowedBodies();
    BackticksCode();
  }

  lemma SwallowedRender()
    ensures var parts := [Fenced([""]), Fenced(["graph TD"])];
      && Render(parts) == ["```mermaid", "", "```", "```mermaid", "graph TD", "```"]
      && |FencedBodies(parts)| == 2
  {
    var parts := [Fenced([""]), Fenced(["graph TD"])];
    assert parts[1..][1..] == [];
  }

  lemma BackticksCode()
    ensures CodeOf(["```"]) == "```"
  {
    assert Join(["```"], "\n") == "```";
    assert Strip("```") == "```";
  }

  lemma SwallowedBodies()
    ensures Bodies(["```mermaid", "", "```", "```mermaid", "graph TD", "```"]) == [["```"]]
  {
    var lines := ["```mermaid", "", "```", "```mermaid", "graph TD", "```"];
    var after := ["mermaid", "graph TD", "```"];
    SwallowedMatch();
    SwallowedTail();
    assert Bodies(lines) == [["```"]] + Bodies(after);
  }

  /** The first match of the two writer blocks: the first block's closing
      fence is its body, and the search resumes on the word "mermaid". */
  lemma SwallowedMatch()
    ensures MatchAt(["```mermaid", "", "```", "```mermaid", "graph TD", "```"])
      == Some(Match(["```"], ["mermaid", "graph TD", "```"]))
  {
    var rest := ["graph TD", "```"];
    assert ["```mermaid", "", "```", "```mermaid", "graph TD", "```"] == ["```mermaid", "", "```", "```mermaid"] + rest;
    OpenFenceOpens();
    BacktickLine("```");
    assert "```mermaid"[..3] == FENCE by {}
    BacktickLine("```mermaid");
    assert IsBlank("") by {}
    BlankBodySwallowed("```mermaid", "", "```", "```mermaid", rest);
    assert "```mermaid"[|FENCE|..] == "mermaid" by {}
    assert ["mermaid"] + rest == ["mermaid", "graph TD", "```"];
  }

  /** What is left after the swallowed block opens nothing. */
  lemma SwallowedTail()
    ensures Bodies(["mermaid", "graph TD", "```"]) == []
  {
    var after := ["mermaid", "graph TD", "```"];
    ShortLine("mermaid");
    ShortLine("graph TD");
    ShortLine("```");
    NoOpeningNoBodies(after);
  }

  /** A block whose only line is blank is given back: the whitespace backs
      off to the blank line, and the closing fence follows it. */
  lemma BlankBlockAlone()
    ensures Bodies(["```mermaid", "", "```"]) == [[""]]
  {
    OpenFenceOpens();
    BacktickLine("```");
    BlankBodyAlone("```mermaid", "", "```");
    assert "```"[|FENCE|..] == "";
    ShortLine("");
    NoOpeningNoBodies([""]);
  }

  lemma {:induction false} RenderedLinesHaveNoBreak(parts: seq<Part>)
    requires forall i :: 0 <= i < |parts| ==> forall j :: 0 <= j < |RenderPart(parts[i])| ==> '\n' !in RenderPart(parts[i])[j]
    ensures forall j :: 0 <= j < |Render(parts)| ==> '\n' !in Render(parts)[j]
    decreases |parts|
  {
    if |parts| > 0 {
      RenderedLinesHaveNoBreak(parts[1..]);
      var head := RenderPart(parts[0]);
      var tail := Render(parts[1..]);
      forall j | 0 <= j < |Render(parts)|
        ensures '\n' !in Render(parts)[j]
      {
        if j < |head| {
          assert Render(parts)[j] == head[j];
        } else {
          assert Render(parts)[j] == tail[j - |head|];
        }
      }
    }
  }

  /** Written out as text, a well-formed document of single-line entries
      yields one diagram per fenced block, numbered from 1, whose code is
      the block's text stripped. */
  lemma ExtractFromDocument(parts: seq<Part>)
    requires WellFormed(parts) && |Render(parts)| >= 1
    requires forall i :: 0 <= i < |parts| ==> forall j :: 0 <= j < |RenderPart(parts[i])| ==> '\n' !in RenderPart(parts[i])[j]
    ensures var ds := ExtractMermaidBlocks(Join(Render(parts), "\n"));
      && |ds| == |FencedBodies(parts)|
      && forall k :: 0 <= k < |ds| ==> ds[k].index == k + 1 && ds[k].code == CodeOf(FencedBodies(parts)[k])
  {
    RenderedLinesHaveNoBreak(parts);
    SplitJoin(Render(parts), '\n');
    BodiesOfRendered(parts);
    forall k | 0 <= k < |FencedBodies(parts)|
      ensures CodeOf(SkipBlankHeads(FencedBodies(parts))[k]) == CodeOf(FencedBodies(parts)[k])
    {
      FencedBodiesAreWellFormed(parts, k);
      CodeSkipsBlankLines(FencedBodies(parts)[k]);
    }
  }

  // -------------------------------------------------------------- titles

  /** A line that names the diagram type the title is taken from. */
  predicate IsHeader(line: string)
  {
    StartsWith(line, "graph") || StartsWith(line, "flowchart") || StartsWith(line, "sequenceDiagram")
  }

  const FALLBACK_TITLE: string := "Flow Diagram"

  /** The title a header line gives: a top-down direction wins, then
      left-to-right; any other header is called a sequence diagram. */
  function TitleOfHeader(line: string): (t: string)
    ensures t != FALLBACK_TITLE
  {
    if Contains(line, "TB") || Contains(line, "TD") then "System Flow"
    else if Contains(line, "LR") then "Data Flow"
    else "Sequence Diagram"
  }

  /** A line whose stripped text is a header. */
  predicate HeaderLine(line: string)
  {
    IsHeader(Strip(line))
  }

  /** The title a line gives, once it is known to be a header. */
  function HeaderTitle(line: string): (t: string)
    ensures t != FALLBACK_TITLE
  {
    TitleOfHeader(Strip(line))
  }

  /** The scan of `get_diagram_title`, for any test of a line and any
      title it gives: the first line passing `decides` gives the answer,
      and `fallback` is the answer when none does. */
  function FirstDecides(lines: seq<string>, decides: string -> bool, verdict: string -> string, fallback: string): string
    decreases |lines|
  {
    if |lines| == 0 then fallback
    else if decides(lines[0]) then verdict(lines[0])
    else FirstDecides(lines[1..], decides, verdict, fallback)
  }

  /** The title the lines of a diagram's code give. */
  function TitleOfLines(lines: seq<string>): string
  {
    FirstDecides(lines, HeaderLine, HeaderTitle, FALLBACK_TITLE)
  }

  /** `get_diagram_title(code)`. */
  function DiagramTitle(code: string): string
  {
    TitleOfLines(Split(code, '\n'))
  }

  /** When no line decides, the fallback is the answer; when the verdict
      never equals the fallback, only then. */
  lemma {:induction false} FallbackIffNoneDecides(lines: seq<string>, decides: string -> bool, verdict: string -> string, fallback: string)
    requires forall i :: 0 <= i < |lines| ==> verdict(lines[i]) != fallback
    ensures FirstDecides(lines, decides, verdict, fallback) == fallback <==> forall i :: 0 <= i < |lines| ==> !decides(lines[i])
    decreases |lines|
  {
    if |lines| > 0 && !decides(lines[0]) {
      assert forall i :: 0 < i < |lines| ==> lines[i] == lines[1..][i - 1];
      FallbackIffNoneDecides(lines[1..], decides, verdict, fallback);
    }
  }

  /** Otherwise the first deciding line gives the answer. */
  lemma {:induction false} FirstDecidingLineWins(lines: seq<string>, decides: string -> bool, verdict: string -> string, fallback: string, k: nat)
    requires k < |lines| && decides(lines[k])
    requires forall i :: 0 <= i < k ==> !decides(lines[i])
    ensures FirstDecides(lines, decides, verdict, fallback) == verdict(lines[k])
    decreases k
  {
    if k > 0 {
      var tail := lines[1..];
      assert tail[k - 1] == lines[k];
      assert forall i :: 0 <= i < k - 1 ==> tail[i] == lines[i + 1];
      FirstDecidingLineWins(tail, decides, verdict, fallback, k - 1);
    }
  }

  /** The title is "Flow Diagram" exactly when no stripped line of the
      code starts with `graph`, `flowchart` or `sequenceDiagram`. */
  lemma FallbackIffNoHeader(lines: seq<string>)
    ensures TitleOfLines(lines) == FALLBACK_TITLE <==> forall i :: 0 <= i < |lines| ==> !HeaderLine(lines[i])
  {
    forall i | 0 <= i < |lines| ensures HeaderTitle(lines[i]) != FALLBACK_TITLE {
    }
    FallbackIffNoneDecides(lines, HeaderLine, HeaderTitle, FALLBACK_TITLE);
  }

  /** Otherwise the title is the one the first header line gives. */
  lemma TitleIsFirstHeader(lines: seq<string>, k: nat)
    requires k < |lines| && HeaderLine(lines[k])
    requires forall i :: 0 <= i < k ==> !HeaderLine(lines[i])
    ensures TitleOfLines(lines) == TitleOfHeader(Strip(lines[k]))
  {
    FirstDecidingLineWins(lines, HeaderLine, HeaderTitle, FALLBACK_TITLE, k);
  }

  /** Whatever follows the first header line has no say in the title. */
  lemma TitleIgnoresLaterLines(before: seq<string>, header: string, after1: seq<string>, after2: seq<string>)
    requires HeaderLine(header)
    requires forall i :: 0 <= i < |before| ==> !HeaderLine(before[i])
    ensures TitleOfLines(before + [header] + after1) == TitleOfLines(before + [header] + after2)
  {
    var x1 := before + [header] + after1;
    var x2 := before + [header] + after2;
    assert x1[|before|] == header && x2[|before|] == header;
    assert forall i :: 0 <= i < |before| ==> x1[i] == before[i] && x2[i] == before[i];
    FirstDecidingLineWins(x1, HeaderLine, HeaderTitle, FALLBACK_TITLE, |before|);
    FirstDecidingLineWins(x2, HeaderLine, HeaderTitle, FALLBACK_TITLE, |before|);
  }

  /** A right-to-left graph carries none of the direction words looked
      for, so it is called a sequence diagram. */
  lemma RightToLeftGraphIsSequence()
    ensures TitleOfHeader("graph RL") == "Sequence Diagram"
  {
    var s := "graph RL";
    assert forall i :: 0 <= i < 7 ==> s[i] != 'T' && s[i] != 'L' by {
      forall i | 0 <= i < 7
        ensures s[i] != 'T' && s[i] != 'L'
      {
        assert s[i] in "graph R";
      }
    }
    assert !Contains(s, "TB") by {
      forall i | 0 <= i <= |s| - 2 ensures !OccursAt(s, "TB", i) { assert s[i..i + 2][0] == s[i]; }
    }
    assert !Contains(s, "TD") by {
      forall i | 0 <= i <= |s| - 2 ensures !OccursAt(s, "TD", i) { assert s[i..i + 2][0] == s[i]; }
    }
    assert !Contains(s, "LR") by {
      forall i | 0 <= i <= |s| - 2 ensures !OccursAt(s, "LR", i) { assert s[i..i + 2][0] == s[i]; }
    }
  }

  // ------------------------------------------------------------ counting

  /** How many of `ds` satisfy `p`. */
  function CountWhere(ds: seq<Diagram>, p: Diagram -> bool): (n: nat)
    ensures n <= |ds|
    decreases |ds|
  {
    if |ds| == 0 then 0
    else CountWhere(ds[..|ds| - 1], p) + (if p(ds[|ds| - 1]) then 1 else 0)
  }

  /** The count is positive exactly when some diagram satisfies `p`. */
  lemma {:induction false} CountPositiveIffSome(ds: seq<Diagram>, p: Diagram -> bool)
    ensures CountWhere(ds, p) > 0 <==> exists k :: 0 <= k < |ds| && p(ds[k])
    decreases |ds|
  {
    if |ds| > 0 {
      var init := ds[..|ds| - 1];
      CountPositiveIffSome(init, p);
      if exists k :: 0 <= k < |init| && p(init[k]) {
        var k :| 0 <= k < |init| && p(init[k]);
        assert p(ds[k]);
      }
      if exists k :: 0 <= k < |ds| && p(ds[k]) {
        var k :| 0 <= k < |ds| && p(ds[k]);
        if k < |init| {
          assert p(init[k]);
        }
      }
    }
  }

  /** A stricter condition never counts more. */
  lemma {:induction false} CountMonotone(ds: seq<Diagram>, p: Diagram -> bool, q: Diagram -> bool)
    requires forall d :: p(d) ==> q(d)
    ensures CountWhere(ds, p) <= CountWhere(ds, q)
    decreases |ds|
  {
    if |ds| > 0 {
      CountMonotone(ds[..|ds| - 1], p, q);
    }
  }
}
