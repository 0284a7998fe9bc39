/** The two line-oriented passes of `markdown_to_html` in
    `create_modern_pdf.py`: the four header substitutions, and the closing
    pass that strips every line and wraps plain text in paragraphs outside
    `<pre>` blocks. The bold, italic, code and list substitutions that run
    between them are not part of this model. */
module ModernPdf {
  import opened Strings

  // ------------------------------------------------------------- headers

  /** `n` hash signs. */
  function Hashes(n: nat): (r: string)
    ensures |r| == n && forall i :: 0 <= i < n ==> r[i] == '#'
  {
    seq(n, _ => '#')
  }

  /** What the substitution for level `n` looks for at a line start. */
  function HeaderPrefix(n: nat): string
  {
    Hashes(n) + " "
  }

  /** `<hn>body</hn>`. */
  function Heading(n: nat, body: string): (r: string)
    requires 1 <= n <= 4
    ensures |r| > 0 && r[0] == '<'
  {
    "<h" + [DigitChar(n)] + ">" + body + "</h" + [DigitChar(n)] + ">"
  }

  /** One line under `re.sub(r'^#{n} (.*?)$', r'<hn>\1</hn>', ..., flags=re.MULTILINE)`:
      the lazy group stops at the end of the line. */
  function HeaderOne(line: string, n: nat): string
    requires 1 <= n <= 4
  {
    if StartsWith(line, HeaderPrefix(n)) then Heading(n, line[n + 1..]) else line
  }

  function MapHeaderOne(lines: seq<string>, n: nat): (r: seq<string>)
    requires 1 <= n <= 4
    ensures |r| == |lines| && forall i :: 0 <= i < |r| ==> r[i] == HeaderOne(lines[i], n)
  {
    seq(|lines|, i requires 0 <= i < |lines| => HeaderOne(lines[i], n))
  }

  /** The substitution for level `n` over the whole text. */
  function HeaderPass(text: string, n: nat): string
    requires 1 <= n <= 4
  {
    Join(MapHeaderOne(Split(text, '\n'), n), "\n")
  }

  /** The four header substitutions, `#` first. */
  function Headers(text: string): string
  {
    HeaderPass(HeaderPass(HeaderPass(HeaderPass(text, 1), 2), 3), 4)
  }

  /** How many `#` a line starts with. */
  function LeadingHashes(s: string): (h: nat)
    ensures h <= |s|
    ensures forall i :: 0 <= i < h ==> s[i] == '#'
    ensures h < |s| ==> s[h] != '#'
    decreases |s|
  {
    if |s| > 0 && s[0] == '#' then 1 + LeadingHashes(s[1..]) else 0
  }

  /** The rule a reader expects: a line of one to four `#` followed by a
      space is a heading of that level, holding the rest of the line. */
  function HeaderRule(line: string): string
  {
    var h := LeadingHashes(line);
    if 1 <= h <= 4 && h < |line| && line[h] == ' ' then Heading(h, line[h + 1..]) else line
  }

  /** A line starts with the level-`n` prefix exactly when it opens with
      `n` hash signs and then a space. */
  lemma PrefixIffLevel(line: string, n: nat)
    ensures StartsWith(line, HeaderPrefix(n)) <==> LeadingHashes(line) == n && n < |line| && line[n] == ' '
  {
    var h := LeadingHashes(line);
    var p := HeaderPrefix(n);
    if StartsWith(line, p) {
      assert forall i :: 0 <= i < n ==> line[i] == p[i] == '#';
      assert line[n] == p[n] == ' ';
    }
    if h == n && n < |line| && line[n] == ' ' {
      assert line[..|p|] == p;
    }
  }

  /** A heading never starts with a hash sign. */
  lemma HeadingIsNoPrefix(n: nat, m: nat, body: string)
    requires 1 <= n <= 4 && 1 <= m <= 4
    ensures !StartsWith(Heading(n, body), HeaderPrefix(m))
  {
    assert HeaderPrefix(m)[0] == '#';
  }

  /** The level-`n` substitution rewrites a line exactly when the rule
      gives it level `n`. */
  lemma PassAtLevel(line: string, n: nat)
    requires 1 <= n <= 4
    ensures HeaderOne(line, n) == if LeadingHashes(line) == n && n < |line| && line[n] == ' ' then HeaderRule(line) else line
  {
    PrefixIffLevel(line, n);
  }

  /** Once a line is a heading, the later substitutions leave it alone. */
  lemma HeadingStays(n: nat, body: string, m: nat)
    requires 1 <= n <= 4 && 1 <= m <= 4
    ensures HeaderOne(Heading(n, body), m) == Heading(n, body)
  {
    HeadingIsNoPrefix(n, m, body);
  }

  /** The four passes in a row agree with the rule on every line. */
  lemma FourPassesFollowRule(line: string)
    ensures HeaderOne(HeaderOne(HeaderOne(HeaderOne(line, 1), 2), 3), 4) == HeaderRule(line)
  {
    var h := LeadingHashes(line);
    var x1 := HeaderOne(line, 1);
    PassAtLevel(line, 1);
    var x2 := HeaderOne(x1, 2);
    var x3 := HeaderOne(x2, 3);
    if h == 1 && x1 != line {
      HeadingStays(1, line[2..], 2);
      HeadingStays(1, line[2..], 3);
      HeadingStays(1, line[2..], 4);
    } else {
      PassAtLevel(line, 2);
      if h == 2 && x2 != line {
        HeadingStays(2, line[3..], 3);
        HeadingStays(2, line[3..], 4);
      } else {
        PassAtLevel(line, 3);
        if h == 3 && x3 != line {
          HeadingStays(3, line[4..], 4);
        } else {
          PassAtLevel(line, 4);
        }
      }
    }
  }

  /** Stripping and wrapping never introduce a line break. */
  lemma NoBreakInHeaderOne(line: string, n: nat)
    requires 1 <= n <= 4 && '\n' !in line
    ensures '\n' !in HeaderOne(line, n)
  {
    if StartsWith(line, HeaderPrefix(n)) {
      var body := line[n + 1..];
      assert forall c :: c in body ==> c in line;
      var r := Heading(n, body);
      assert r == "<h" + [DigitChar(n)] + ">" + body + "</h" + [DigitChar(n)] + ">";
    }
  }

  /** One pass changes each line by itself and keeps the line count. */
  lemma PassLines(text: string, n: nat)
    requires 1 <= n <= 4
    ensures Split(HeaderPass(text, n), '\n') == MapHeaderOne(Split(text, '\n'), n)
  {
    var lines := Split(text, '\n');
    var out := MapHeaderOne(lines, n);
    forall i | 0 <= i < |out| ensures '\n' !in out[i] {
      NoBreakInHeaderOne(lines[i], n);
    }
    SplitJoin(out, '\n');
  }

  /** `markdown_to_html`'s header substitutions, line by line: the text
      keeps its lines, and each becomes what the rule says. */
  lemma HeadersFollowRule(text: string)
    ensures |Split(Headers(text), '\n')| == |Split(text, '\n')|
    ensures forall k :: 0 <= k < |Split(text, '\n')| ==> Split(Headers(text), '\n')[k] == HeaderRule(Split(text, '\n')[k])
  {
    var t1 := HeaderPass(text, 1);
    var t2 := HeaderPass(t1, 2);
    var t3 := HeaderPass(t2, 3);
    PassLines(text, 1);
    PassLines(t1, 2);
    PassLines(t2, 3);
    PassLines(t3, 4);
    forall k | 0 <= k < |Split(text, '\n')|
      ensures Split(Headers(text), '\n')[k] == HeaderRule(Split(text, '\n')[k])
    {
      FourPassesFollowRule(Split(text, '\n')[k]);
    }
  }

  /** A level-5 line is left alone. */
  lemma FiveHashesStay(body: string)
    ensures HeaderRule("##### " + body) == "##### " + body
  {
    var line := "##### " + body;
    assert line[..5] == "#####";
    assert LeadingHashes(line) == 5 by {
      assert forall i :: 0 <= i < 5 ==> line[i] == '#';
      assert line[5] == ' ';
    }
  }

  // ---------------------------------------------------------- paragraphs

  predicate OpensCode(s: string)
  {
    StartsWith(s, "<pre>")
  }

  predicate ClosesCode(s: string)
  {
    StartsWith(s, "</pre>")
  }

  /** A stripped line that gets a paragraph outside code: non-empty, and
      not already markup or a rule. */
  predicate Wrappable(s: string)
  {
    s != "" && !StartsWith(s, "<") && !StartsWith(s, "---")
  }

  /** Every line stripped. */
  function StripAll(lines: seq<string>): (r: seq<string>)
    ensures |r| == |lines| && forall i :: 0 <= i < |r| ==> r[i] == Strip(lines[i])
  {
    seq(|lines|, i requires 0 <= i < |lines| => Strip(lines[i]))
  }

  /** The pass's flag before stripped line `k`: set by the last `<pre>`
      line, cleared by a `</pre>` line. */
  function InCodeBefore(ss: seq<string>, k: nat): bool
    requires k <= |ss|
    decreases k
  {
    if k == 0 then false
    else if OpensCode(ss[k - 1]) then true
    else if ClosesCode(ss[k - 1]) then false
    else InCodeBefore(ss, k - 1)
  }

  /** No line opens or closes a block strictly between `j` and `k`. */
  predicate Unmarked(ss: seq<string>, j: nat, k: nat)
    requires k <= |ss|
  {
    forall m :: j < m < k ==> !OpensCode(ss[m]) && !ClosesCode(ss[m])
  }

  /** Code mode holds before line `k` exactly when some earlier line opens
      a `<pre>` block and no line since then opens or closes one. */
  lemma {:induction false} InCodeIffOpenBlock(ss: seq<string>, k: nat)
    requires k <= |ss|
    ensures InCodeBefore(ss, k) <==> exists j :: 0 <= j < k && OpensCode(ss[j]) && Unmarked(ss, j, k)
    decreases k
  {
    if k > 0 {
      InCodeIffOpenBlock(ss, k - 1);
      if OpensCode(ss[k - 1]) {
        assert Unmarked(ss, k - 1, k);
      } else if ClosesCode(ss[k - 1]) {
        forall j | 0 <= j < k - 1 ensures !Unmarked(ss, j, k) {
          assert !(!OpensCode(ss[k - 1]) && !ClosesCode(ss[k - 1]));
        }
      } else {
        forall j | 0 <= j < k - 1 ensures Unmarked(ss, j, k) <==> Unmarked(ss, j, k - 1) {
        }
      }
    }
  }

  /** What the pass emits for a stripped line, given the flag before it.
      The `<pre>` and `</pre>` lines start with `<`, so they are never
      wrapped either. */
  function ParagraphLine(s: string, inCode: bool): string
  {
    if !inCode && Wrappable(s) then "<p>" + s + "</p>" else s
  }

  /** The closing pass of `markdown_to_html`: split into lines, strip
      each, run the loop, and join the lines back. The output has the
      input's lines. */
  method ParagraphPass(html: string) returns (out: string)
    ensures var ss := StripAll(Split(html, '\n'));
      && |Split(out, '\n')| == |ss|
      && forall k :: 0 <= k < |ss| ==> Split(out, '\n')[k] == ParagraphLine(ss[k], InCodeBefore(ss, k))
  {
    var lines := Split(html, '\n');
    var ss := StripAll(lines);
    forall k | 0 <= k < |ss| ensures '\n' !in ss[k] {
      NoBreakInStrip(lines[k]);
    }
    var result := ParagraphLoop(ss);
    SplitJoin(result, '\n');
    out := Join(result, "\n");
  }

  /** The loop of the pass over the stripped lines (each line is stripped
      on its own, so stripping them all first changes nothing): track
      `<pre>` blocks, and wrap plain lines outside them in paragraphs. */
  method ParagraphLoop(ss: seq<string>) returns (result: seq<string>)
    requires forall k :: 0 <= k < |ss| ==> '\n' !in ss[k]
    ensures |result| == |ss|
    ensures forall k :: 0 <= k < |ss| ==> result[k] == ParagraphLine(ss[k], InCodeBefore(ss, k))
    ensures forall k :: 0 <= k < |ss| ==> '\n' !in result[k]
  {
    var inCodeBlock := false;
    result := [];
    var i := 0;
    while i < |ss|
      invariant 0 <= i <= |ss|
      invariant inCodeBlock == InCodeBefore(ss, i)
      invariant |result| == i
      invariant forall k {:trigger result[k]} :: 0 <= k < i ==> result[k] == ParagraphLine(ss[k], InCodeBefore(ss, k)) && '\n' !in result[k]
    {
      var line, next := EmitLine(ss[i], inCodeBlock);
      inCodeBlock := next;
      result := result + [line];
      i := i + 1;
    }
  }

  /** One turn of the loop on a stripped line: the line to emit and the
      flag for the next line. */
  method EmitLine(stripped: string, inCodeBlock: bool) returns (line: string, next: bool)
    ensures line == ParagraphLine(stripped, inCodeBlock)
    ensures next == if OpensCode(stripped) then true else if ClosesCode(stripped) then false else inCodeBlock
    ensures '\n' !in stripped ==> '\n' !in line
  {
    line := stripped;
    next := inCodeBlock;
    MarkersAreMarkup(line, inCodeBlock);
    if StartsWith(line, "<pre>") {
      next := true;
    } else if StartsWith(line, "</pre>") {
      next := false;
    } else if !inCodeBlock && line != [] && !StartsWith(line, "<") && !StartsWith(line, "---") {
      if '\n' !in stripped {
        NoBreakInParagraph(stripped);
      }
      line := "<p>" + line + "</p>";
    }
  }

  /** The loop's three-way test agrees with `ParagraphLine`: the block
      markers start with `<`, so they are never wrapped. */
  lemma MarkersAreMarkup(s: string, inCode: bool)
    ensures OpensCode(s) || ClosesCode(s) ==> ParagraphLine(s, inCode) == s
    ensures !OpensCode(s) && !ClosesCode(s) ==>
      ParagraphLine(s, inCode) == if !inCode && s != [] && !StartsWith(s, "<") && !StartsWith(s, "---") then "<p>" + s + "</p>" else s
  {
    if OpensCode(s) || ClosesCode(s) {
      assert s[..1] == "<";
    }
  }

  lemma NoBreakInParagraph(s: string)
    requires '\n' !in s
    ensures '\n' !in "<p>" + s + "</p>"
  {
    assert forall c :: c in "<p>" + s + "</p>" ==> c in s || c in "<p>" || c in "</p>";
  }

  lemma NoBreakInStrip(line: string)
    requires '\n' !in line
    ensures '\n' !in Strip(line)
  {
  }

  /** A stripped line, or a paragraph, strips to itself. */
  lemma StripFixes(s: string)
    requires |s| == 0 || (!IsSpace(s[0]) && !IsSpace(s[|s| - 1]))
    ensures Strip(s) == s
  {
  }

  /** The lines the pass emits for stripped lines. */
  function ParagraphLines(ss: seq<string>): (r: seq<string>)
    ensures |r| == |ss|
  {
    seq(|ss|, k requires 0 <= k < |ss| => ParagraphLine(ss[k], InCodeBefore(ss, k)))
  }

  /** A paragraph is markup: it neither opens nor closes a block, and is
      not wrapped again. */
  lemma ParagraphIsMarkup(s: string)
    ensures var w := "<p>" + s + "</p>"; !OpensCode(w) && !ClosesCode(w) && !Wrappable(w)
  {
    var w := "<p>" + s + "</p>";
    assert w[..1] == "<" && w[1] == 'p' && w[2] == '>';
  }

  /** The emitted line opens or closes a block exactly when its input
      did. */
  lemma MarkersKept(s: string, inCode: bool)
    ensures OpensCode(ParagraphLine(s, inCode)) <==> OpensCode(s)
    ensures ClosesCode(ParagraphLine(s, inCode)) <==> ClosesCode(s)
  {
    ParagraphIsMarkup(s);
    MarkersAreMarkup(s, inCode);
  }

  /** The flags depend only on which lines open or close a block. */
  lemma {:induction false} SameFlags(xs: seq<string>, ys: seq<string>, k: nat)
    requires k <= |xs| == |ys|
    requires forall j :: 0 <= j < |xs| ==> (OpensCode(xs[j]) <==> OpensCode(ys[j])) && (ClosesCode(xs[j]) <==> ClosesCode(ys[j]))
    ensures InCodeBefore(xs, k) == InCodeBefore(ys, k)
    decreases k
  {
    if k > 0 {
      SameFlags(xs, ys, k - 1);
    }
  }

  /** Every emitted line strips to itself. */
  lemma EmittedLinesAreStripped(ss: seq<string>)
    requires forall k :: 0 <= k < |ss| ==> ss[k] == Strip(ss[k])
    ensures StripAll(ParagraphLines(ss)) == ParagraphLines(ss)
  {
    var out := ParagraphLines(ss);
    forall k | 0 <= k < |ss| ensures Strip(out[k]) == out[k] {
      EmittedLineIsStripped(ss[k], InCodeBefore(ss, k));
    }
  }

  lemma EmittedLineIsStripped(s: string, inCode: bool)
    requires s == Strip(s)
    ensures Strip(ParagraphLine(s, inCode)) == ParagraphLine(s, inCode)
  {
    if !inCode && Wrappable(s) {
      var w := "<p>" + s + "</p>";
      assert w[0] == '<' && w[|w| - 1] == '>';
      StripFixes(w);
    }
  }

  /** Running the pass again on its own output changes nothing: the
      stripped lines of the output are the output, the flags are the same,
      and no emitted line is wrapped again. */
  lemma ParagraphPassIdempotent(lines: seq<string>)
    ensures ParagraphLines(StripAll(ParagraphLines(StripAll(lines)))) == ParagraphLines(StripAll(lines))
  {
    var ss := StripAll(lines);
    forall k | 0 <= k < |ss| ensures ss[k] == Strip(ss[k]) {
      StripTwice(lines[k]);
    }
    EmittedLinesAreStripped(ss);
    var once := ParagraphLines(ss);
    forall j | 0 <= j < |ss|
      ensures (OpensCode(once[j]) <==> OpensCode(ss[j])) && (ClosesCode(once[j]) <==> ClosesCode(ss[j]))
    {
      MarkersKept(ss[j], InCodeBefore(ss, j));
    }
    forall k | 0 <= k < |ss|
      ensures ParagraphLines(once)[k] == once[k]
    {
      SameFlags(once, ss, k);
      ParagraphIsMarkup(ss[k]);
    }
  }

  /** Stripping twice is stripping once. */
  lemma StripTwice(s: string)
    ensures Strip(Strip(s)) == Strip(s)
  {
    var t := Strip(s);
    if |t| > 0 {
      StripFixes(t);
    }
  }
}
