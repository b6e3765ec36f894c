/**
 * `html_to_markdown`: the walk over the top-level siblings of the article
 * body, the section filter it runs with its `ignore_section` flag, and the
 * document it assembles: a YAML frontmatter header, the article title and
 * the rendered blocks, joined by line breaks.
 *
 * Parsing the page and locating the body and the first `h1` are the
 * parser's work; their results come in as optional nodes.
 */
module Converter {
  import opened Wrappers
  import opened Text
  import opened Tree
  import opened InlineRenderer
  import opened Blocks
  import opened Lists

  /** `SKIP_SECTIONS`: boilerplate sections whose heading starts a skipped section. */
  const SkipSections: set<string> := {"References", "External links", "See also", "Further reading", "Notes"}

  /** `SKIP_CLASSES`: user-interface and metadata blocks. */
  const SkipClasses: set<string> :=
    {"infobox", "navbox", "vertical-navbox", "hatnote", "metadata", "mwe-math-element", "sidebar"}

  /** Tags that never carry article prose. */
  const DroppedTags: set<string> := {"table", "figure", "img", "style", "script"}

  const Headings: set<string> := {"h2", "h3", "h4", "h5", "h6"}

  predicate HasSkipClass(n: Node) {
    n.Elem? && exists i :: 0 <= i < |n.classes| && n.classes[i] in SkipClasses
  }

  /**
   * Siblings the walk passes over before it looks at the section flag: text
   * runs, dropped tags, the table of contents and skip-classed elements.
   */
  predicate IsNonContent(n: Node) {
    || n.TextRun?
    || n.name in DroppedTags
    || (n.name == "div" && Attr(n, "id") == Some("toc"))
    || HasSkipClass(n)
  }

  /** An `h2` that the walk looks at: it starts a new section. */
  predicate IsSectionHeading(n: Node) {
    !IsNonContent(n) && n.name == "h2"
  }

  /** A section heading whose text (`get_text(" ", strip=True)`) names a boilerplate section. */
  predicate IsSkipHeading(n: Node) {
    IsSectionHeading(n) && GetStrippedText(n, " ") in SkipSections
  }

  /** The lines a supported block contributes; text runs and other tags contribute none. */
  function BlockLines(n: Node): (r: seq<string>)
    ensures n.TextRun? || n.name !in Headings + {"p", "ul", "ol", "pre", "blockquote"} ==> r == []
  {
    if n.TextRun? then []
    else if n.name in Headings then
      assert |n.name| >= 2 && IsDigit(n.name[1]);
      ConvertHeading(n)
    else if n.name == "p" then ConvertParagraph(n)
    else if n.name == "ul" || n.name == "ol" then ListLines(n, 0, n.name == "ol")
    else if n.name == "pre" then ConvertCodeBlock(n)
    else if n.name == "blockquote" then ConvertBlockquote(n)
    else []
  }

  /** The blocks of `ns` rendered one after the other. */
  function Rendered(ns: seq<Node>): seq<string> {
    if ns == [] then [] else Rendered(ns[..|ns| - 1]) + BlockLines(ns[|ns| - 1])
  }

  // ---------------------------------------------------------------------------
  // The section filter
  // ---------------------------------------------------------------------------

  /** The value of `ignore_section` after looking at `n`. */
  function NextFlag(ignoring: bool, n: Node): (r: bool)
    ensures IsSectionHeading(n) ==> (r <==> IsSkipHeading(n))
    ensures !IsSectionHeading(n) ==> r == ignoring
  {
    if IsNonContent(n) then ignoring
    else if n.name == "h2" then GetStrippedText(n, " ") in SkipSections
    else ignoring
  }

  /** Whether the walk renders `n` when it reaches it with the flag at `ignoring`. */
  predicate Renders(ignoring: bool, n: Node) {
    !IsNonContent(n) && !NextFlag(ignoring, n)
  }

  /** The flag after walking `ns` from `start`. */
  function SectionFlag(start: bool, ns: seq<Node>): bool {
    if ns == [] then start
    else NextFlag(SectionFlag(start, ns[..|ns| - 1]), ns[|ns| - 1])
  }

  /** The siblings of `ns` the walk renders, in order, starting with the flag at `start`. */
  function Kept(start: bool, ns: seq<Node>): seq<Node>
  {
    if ns == [] then []
    else
      var init := ns[..|ns| - 1];
      var n := ns[|ns| - 1];
      Kept(start, init) + (if Renders(SectionFlag(start, init), n) then [n] else [])
  }

  /** The body lines: the kept siblings, rendered. */
  function Body(ns: seq<Node>): seq<string> {
    Rendered(Kept(false, ns))
  }

  /** The siblings that are not skipped as non-content. */
  function ContentOf(ns: seq<Node>): (r: seq<Node>)
    ensures forall i :: 0 <= i < |r| ==> !IsNonContent(r[i])
  {
    if ns == [] then []
    else
      var n := ns[|ns| - 1];
      ContentOf(ns[..|ns| - 1]) + (if IsNonContent(n) then [] else [n])
  }

  /** `ContentOf` is exactly the siblings that are not non-content: in order, each as often as it occurs. */
  lemma ContentOfExact(ns: seq<Node>)
    ensures Subseq(ContentOf(ns), ns)
    ensures forall i :: 0 <= i < |ns| && !IsNonContent(ns[i]) ==> ns[i] in ContentOf(ns)
    ensures forall x :: Occurrences(ContentOf(ns), x) == if !IsNonContent(x) then Occurrences(ns, x) else 0
  {
    ContentOfOrdered(ns);
    ContentOfCount(ns);
  }

  lemma {:induction false} ContentOfOrdered(ns: seq<Node>)
    ensures Subseq(ContentOf(ns), ns)
    ensures forall i :: 0 <= i < |ns| && !IsNonContent(ns[i]) ==> ns[i] in ContentOf(ns)
    decreases |ns|
  {
    if ns != [] {
      var init := ns[..|ns| - 1];
      var n := ns[|ns| - 1];
      var tail: seq<Node> := if !IsNonContent(n) then [n] else [];
      assert ContentOf(ns) == ContentOf(init) + tail;
      assert ns == init + [n];
      ContentOfOrdered(init);
      if !IsNonContent(n) {
        SubseqRefl([n]);
      }
      SubseqConcat(ContentOf(init), init, tail, [n]);
      forall i | 0 <= i < |ns| && !IsNonContent(ns[i]) ensures ns[i] in ContentOf(ns) {
        if i < |init| {
          assert ns[i] == init[i] && ns[i] in ContentOf(init);
        }
      }
    }
  }

  /** `ContentOf` keeps every content sibling as often as it occurs, and nothing else. */
  lemma ContentOfCount(ns: seq<Node>)
    ensures forall x :: Occurrences(ContentOf(ns), x) == if !IsNonContent(x) then Occurrences(ns, x) else 0
  {
    forall x {
      ContentOfCountOf(ns, x);
    }
  }

  lemma {:induction false} ContentOfCountOf(ns: seq<Node>, x: Node)
    ensures Occurrences(ContentOf(ns), x) == if !IsNonContent(x) then Occurrences(ns, x) else 0
    decreases |ns|
  {
    if ns != [] {
      var init := ns[..|ns| - 1];
      var n := ns[|ns| - 1];
      assert ns == init + [n];
      ContentOfCountOf(init, x);
      assert ContentOf(ns) == ContentOf(init) + (if !IsNonContent(n) then [n] else []);
      OccurrencesFilterSnoc(ContentOf(init), init, n, x, !IsNonContent(n), !IsNonContent(x));
    }
  }

  /** The walk only leaves siblings out: what it renders is a subsequence of the content siblings. */
  lemma {:induction false} KeptWithinContent(start: bool, ns: seq<Node>)
    ensures Subseq(Kept(start, ns), ContentOf(ns))
    decreases |ns|
  {
    if ns != [] {
      var init := ns[..|ns| - 1];
      var n := ns[|ns| - 1];
      KeptWithinContent(start, init);
      if Renders(SectionFlag(start, init), n) {
        SubseqRefl([n]);
        SubseqConcat(Kept(start, init), ContentOf(init), [n], [n]);
      } else {
        var tail: seq<Node> := if IsNonContent(n) then [] else [n];
        SubseqConcat(Kept(start, init), ContentOf(init), [], tail);
        assert Kept(start, init) + [] == Kept(start, init);
      }
    }
  }

  lemma {:induction false} KeptAppend(start: bool, xs: seq<Node>, ys: seq<Node>)
    ensures SectionFlag(start, xs + ys) == SectionFlag(SectionFlag(start, xs), ys)
    ensures Kept(start, xs + ys) == Kept(start, xs) + Kept(SectionFlag(start, xs), ys)
    decreases |ys|
  {
    if ys == [] {
      assert xs + ys == xs;
    } else {
      var init := ys[..|ys| - 1];
      assert (xs + ys)[..|xs + ys| - 1] == xs + init;
      assert (xs + ys)[|xs + ys| - 1] == ys[|ys| - 1];
      KeptAppend(start, xs, init);
    }
  }

  /** Walking a single sibling. */
  lemma KeptOne(start: bool, n: Node)
    ensures SectionFlag(start, [n]) == NextFlag(start, n)
    ensures Kept(start, [n]) == if Renders(start, n) then [n] else []
  {
    assert [n][..0] == [];
  }

  /**
   * Text runs, dropped tags, the table of contents and skip-classed
   * elements are never rendered and do not change the section flag.
   */
  lemma NonContentInvisible(start: bool, xs: seq<Node>, n: Node, ys: seq<Node>)
    requires IsNonContent(n)
    ensures SectionFlag(start, xs + [n] + ys) == SectionFlag(start, xs + ys)
    ensures Kept(start, xs + [n] + ys) == Kept(start, xs + ys)
  {
    KeptAppend(start, xs + [n], ys);
    KeptAppend(start, xs, [n]);
    KeptAppend(start, xs, ys);
    KeptOne(SectionFlag(start, xs), n);
  }

  /** Nothing after a skip heading is rendered while no section heading follows. */
  lemma {:induction false} SuppressedWithoutHeading(ns: seq<Node>)
    requires forall i :: 0 <= i < |ns| ==> !IsSectionHeading(ns[i])
    ensures SectionFlag(true, ns) && Kept(true, ns) == []
  {
    if ns != [] {
      SuppressedWithoutHeading(ns[..|ns| - 1]);
    }
  }

  /** A skip heading and the siblings after it, up to the next section heading, are not rendered. */
  lemma SkipHeadingSuppresses(start: bool, xs: seq<Node>, h: Node, ys: seq<Node>)
    requires IsSkipHeading(h)
    requires forall i :: 0 <= i < |ys| ==> !IsSectionHeading(ys[i])
    ensures SectionFlag(start, xs + [h] + ys)
    ensures Kept(start, xs + [h] + ys) == Kept(start, xs)
  {
    KeptAppend(start, xs + [h], ys);
    KeptAppend(start, xs, [h]);
    KeptOne(SectionFlag(start, xs), h);
    SuppressedWithoutHeading(ys);
  }

  /** Siblings that start with an ordinary section heading are kept alike whatever the flag. */
  lemma HeadingClearsFlag(zs: seq<Node>)
    requires zs != [] && IsSectionHeading(zs[0]) && !IsSkipHeading(zs[0])
    ensures Kept(true, zs) == Kept(false, zs)
  {
    var z := zs[0];
    assert [z] + zs[1..] == zs;
    KeptAppend(true, [z], zs[1..]);
    KeptAppend(false, [z], zs[1..]);
    KeptOne(true, z);
    KeptOne(false, z);
  }

  /**
   * A boilerplate section is left out whole: its heading and every sibling
   * up to the next section heading are not rendered, and that next heading
   * clears the flag again, so what follows is kept as if the skipped section
   * had not been there.
   */
  lemma SkippedSection(start: bool, xs: seq<Node>, h: Node, ys: seq<Node>, zs: seq<Node>)
    requires IsSkipHeading(h)
    requires forall i :: 0 <= i < |ys| ==> !IsSectionHeading(ys[i])
    requires zs != [] && IsSectionHeading(zs[0]) && !IsSkipHeading(zs[0])
    ensures Kept(start, xs + [h] + ys + zs) == Kept(start, xs) + Kept(false, zs)
  {
    KeptAppend(start, xs + [h] + ys, zs);
    SkipHeadingSuppresses(start, xs, h, ys);
    HeadingClearsFlag(zs);
  }

  /** A section heading with an ordinary title is rendered and clears the flag, whatever it was. */
  lemma HeadingResets(start: bool, xs: seq<Node>, h: Node, ys: seq<Node>)
    requires IsSectionHeading(h) && !IsSkipHeading(h)
    ensures !SectionFlag(start, xs + [h])
    ensures Kept(start, xs + [h] + ys) == Kept(start, xs) + [h] + Kept(false, ys)
  {
    KeptAppend(start, xs + [h], ys);
    KeptAppend(start, xs, [h]);
    KeptOne(SectionFlag(start, xs), h);
  }

  /** Without boilerplate headings nothing is suppressed: every content sibling is rendered, in order. */
  lemma {:induction false} NoSkipKeepsOrder(ns: seq<Node>)
    requires forall i :: 0 <= i < |ns| ==> !IsSkipHeading(ns[i])
    ensures !SectionFlag(false, ns) && Kept(false, ns) == ContentOf(ns)
  {
    if ns != [] {
      NoSkipKeepsOrder(ns[..|ns| - 1]);
    }
  }

  // ---------------------------------------------------------------------------
  // The document
  // ---------------------------------------------------------------------------

  /** A calendar date, as `download_date`. */
  datatype Date = Date(year: nat, month: nat, day: nat)

  /** `date.isoformat()`: `YYYY-MM-DD`, zero padded. */
  function IsoFormat(d: Date): (r: string)
    ensures forall i :: 0 <= i < |r| ==> IsDigit(r[i]) || r[i] == '-'
  {
    ZeroPad(d.year, 4) + "-" + ZeroPad(d.month, 2) + "-" + ZeroPad(d.day, 2)
  }

  /** Where the three fields sit in `y-m-d` when they are four, two and two characters long. */
  lemma DateSlices(y: string, m: string, dd: string)
    requires |y| == 4 && |m| == 2 && |dd| == 2
    ensures var r := y + "-" + m + "-" + dd;
            && |r| == 10 && r[4] == '-' && r[7] == '-'
            && r[..4] == y && r[5..7] == m && r[8..] == dd
  {
  }

  /**
   * For every date Python can hold (year below 10000), `isoformat` writes the
   * four-digit year, the two-digit month and the two-digit day, separated by `-`.
   */
  lemma IsoFormatLayout(d: Date)
    requires d.year < 10000 && d.month < 100 && d.day < 100
    ensures var r := IsoFormat(d);
            && |r| == 10 && r[4] == '-' && r[7] == '-'
            && AllDigits(r[..4]) && AllDigits(r[5..7]) && AllDigits(r[8..])
            && DigitsValue(r[..4]) == d.year && DigitsValue(r[5..7]) == d.month && DigitsValue(r[8..]) == d.day
  {
    var y, m, dd := ZeroPad(d.year, 4), ZeroPad(d.month, 2), ZeroPad(d.day, 2);
    assert Pow10(4) == 10000 && Pow10(2) == 100;
    ZeroPadFixed(d.year, 4);
    ZeroPadFixed(d.month, 2);
    ZeroPadFixed(d.day, 2);
    DateSlices(y, m, dd);
  }

  /** The stripped text of the first `h1` when there is one, otherwise the title from the input list. */
  function ArticleTitle(h1: Option<Node>, csvTitle: string): string {
    match h1
    case Some(t) => GetStrippedText(t, "")
    case None => csvTitle
  }

  /** The frontmatter block: `---`, the title, the source address, the download date, `---`. */
  function FrontLines(csvTitle: string, url: string, isoDate: string): (r: seq<string>)
    ensures |r| == 5 && r[0] == "---" && r[4] == "---"
  {
    ["---", "title: " + csvTitle, "url: " + url, "download_date: " + isoDate, "---"]
  }

  /** The eight header lines: the frontmatter block, a blank line, the title heading, a blank line. */
  function Header(csvTitle: string, url: string, isoDate: string, articleTitle: string): (r: seq<string>)
    ensures |r| == 8 && r[..5] == FrontLines(csvTitle, url, isoDate)
    ensures r[5] == "" && r[6] == "# " + articleTitle && r[7] == ""
  {
    FrontLines(csvTitle, url, isoDate) + ["", "# " + articleTitle, ""]
  }

  /** `"\n".join(lines).rstrip() + "\n"`. */
  function Finish(lines: seq<string>): (r: string)
    ensures r != [] && r[|r| - 1] == '\n'
  {
    TrimRight(Join("\n", lines)) + "\n"
  }

  /** What `html_to_markdown` returns: nothing without an article body, otherwise the document. */
  function Document(content: Option<Node>, h1: Option<Node>, csvTitle: string, url: string, date: Date): (r: Option<string>)
    ensures r.None? <==> content.None?
  {
    match content
    case None => None
    case Some(root) =>
      Some(Finish(Header(csvTitle, url, IsoFormat(date), ArticleTitle(h1, csvTitle)) + Body(Children(root))))
  }

  /** The frontmatter block as it appears in the text, up to its closing `---`. */
  function FrontBlock(csvTitle: string, url: string, isoDate: string): (r: string)
    ensures |r| >= 3 && r[|r| - 3..] == "---"
  {
    var lines := FrontLines(csvTitle, url, isoDate);
    JoinEnds("\n", lines);
    Join("\n", lines)
  }

  /**
   * Right-stripping `a`, a line break and `b`, then adding one line break,
   * keeps `a` and the line break after it when `a` ends in a non-space.
   */
  lemma TrimRightKeepsHead(a: string, b: string)
    requires a != [] && !IsSpace(a[|a| - 1])
    ensures var r := TrimRight(a + "\n" + b) + "\n";
            && |a| + 1 <= |r| && r[..|a| + 1] == a + "\n"
            && r[|r| - 1] == '\n' && !IsSpace(r[|r| - 2])
  {
    var nb := "\n" + b;
    assert a + "\n" + b == a + nb;
    TrimRightConcat(a, nb);
    TrimRightFixpoint(a);
    var t := TrimRight(a + nb);
    if !AllSpace(nb) {
      var tb := TrimRight(nb);
      assert tb != [] && tb[0] == '\n';
      assert t == a + tb;
      assert (t + "\n")[..|a| + 1] == a + "\n";
    } else {
      assert t + "\n" == a + "\n";
    }
  }

  /** The joined lines: the frontmatter block, a line break, then the title and the body. */
  lemma HeaderText(csvTitle: string, url: string, isoDate: string, articleTitle: string, body: seq<string>)
    ensures Join("\n", Header(csvTitle, url, isoDate, articleTitle) + body)
         == FrontBlock(csvTitle, url, isoDate) + "\n" + Join("\n", ["", "# " + articleTitle, ""] + body)
  {
    var front := FrontLines(csvTitle, url, isoDate);
    var tail := ["", "# " + articleTitle, ""] + body;
    assert Header(csvTitle, url, isoDate, articleTitle) + body == front + tail;
    JoinAppend("\n", front, tail);
  }

  lemma FinishShape(csvTitle: string, url: string, isoDate: string, articleTitle: string, body: seq<string>)
    ensures var r := Finish(Header(csvTitle, url, isoDate, articleTitle) + body);
            var front := FrontBlock(csvTitle, url, isoDate) + "\n";
            && |front| <= |r| && r[..|front|] == front
            && |r| >= 2 && r[|r| - 1] == '\n' && !IsSpace(r[|r| - 2])
  {
    HeaderText(csvTitle, url, isoDate, articleTitle, body);
    var fb := FrontBlock(csvTitle, url, isoDate);
    assert fb[|fb| - 1] == '-';
    TrimRightKeepsHead(fb, Join("\n", ["", "# " + articleTitle, ""] + body));
  }

  /**
   * When the article title ends in a non-space, the final `rstrip` cannot
   * reach the title line: the document opens with the frontmatter block, a
   * blank line and `# title`, each ended by a line break.
   */
  lemma TitleLine(csvTitle: string, url: string, isoDate: string, articleTitle: string, body: seq<string>)
    requires articleTitle != [] && !IsSpace(articleTitle[|articleTitle| - 1])
    ensures FrontBlock(csvTitle, url, isoDate) + "\n\n# " + articleTitle + "\n"
         <= Finish(Header(csvTitle, url, isoDate, articleTitle) + body)
  {
    HeaderText(csvTitle, url, isoDate, articleTitle, body);
    var fb := FrontBlock(csvTitle, url, isoDate);
    var line := "# " + articleTitle;
    var rest := Join("\n", [""] + body);
    assert Join("\n", ["", line, ""] + body) == "" + "\n" + Join("\n", [line, ""] + body) by {
      assert (["", line, ""] + body)[1..] == [line, ""] + body;
    }
    assert Join("\n", [line, ""] + body) == line + "\n" + rest by {
      assert ([line, ""] + body)[1..] == [""] + body;
    }
    var a := fb + "\n\n# " + articleTitle;
    assert fb + "\n" + ("" + "\n" + (line + "\n" + rest)) == a + "\n" + rest;
    assert a[|a| - 1] == articleTitle[|articleTitle| - 1];
    TrimRightKeepsHead(a, rest);
  }

  lemma DocumentShape(content: Option<Node>, h1: Option<Node>, csvTitle: string, url: string, date: Date)
    requires content.Some?
    ensures var r := Document(content, h1, csvTitle, url, date).value;
            var front := FrontBlock(csvTitle, url, IsoFormat(date)) + "\n";
            && |front| <= |r| && r[..|front|] == front
            && |r| >= 2 && r[|r| - 1] == '\n' && !IsSpace(r[|r| - 2])
    ensures var t := ArticleTitle(h1, csvTitle);
            t != [] && !IsSpace(t[|t| - 1]) ==>
              FrontBlock(csvTitle, url, IsoFormat(date)) + "\n\n# " + t + "\n" <= Document(content, h1, csvTitle, url, date).value
  {
    var t := ArticleTitle(h1, csvTitle);
    var body := Body(Children(content.value));
    FinishShape(csvTitle, url, IsoFormat(date), t, body);
    if t != [] && !IsSpace(t[|t| - 1]) {
      TitleLine(csvTitle, url, IsoFormat(date), t, body);
    }
  }

  // ---------------------------------------------------------------------------
  // The converter
  // ---------------------------------------------------------------------------

  /** Walking one more sibling. */
  lemma KeptSnoc(start: bool, ns: seq<Node>, n: Node)
    ensures SectionFlag(start, ns + [n]) == NextFlag(SectionFlag(start, ns), n)
    ensures Kept(start, ns + [n]) == Kept(start, ns) + (if Renders(SectionFlag(start, ns), n) then [n] else [])
  {
    assert (ns + [n])[..|ns|] == ns;
  }

  lemma RenderedSnoc(ns: seq<Node>, n: Node)
    ensures Rendered(ns + [n]) == Rendered(ns) + BlockLines(n)
  {
    assert (ns + [n])[..|ns|] == ns;
  }

  /** The dispatch on the tag name at the end of the loop of `html_to_markdown`. */
  method ConvertBlock(child: Node) returns (block: seq<string>)
    requires child.Elem?
    ensures block == BlockLines(child)
  {
    if child.name in Headings {
      block := ConvertHeading(child);
    } else if child.name == "p" {
      block := ConvertParagraph(child);
    } else if child.name == "ul" || child.name == "ol" {
      block := ConvertList(child, 0, child.name == "ol");
    } else if child.name == "pre" {
      block := ConvertCodeBlock(child);
    } else if child.name == "blockquote" {
      block := ConvertBlockquote(child);
    } else {
      block := [];
    }
  }

  /** The flag and the block after looking at one sibling: the body of the loop of `html_to_markdown`. */
  method VisitChild(child: Node, ignoring: bool) returns (ignoringAfter: bool, block: seq<string>)
    ensures ignoringAfter == NextFlag(ignoring, child)
    ensures block == if Renders(ignoring, child) then BlockLines(child) else []
  {
    ignoringAfter := ignoring;
    block := [];
    if !IsNonContent(child) {
      if child.name == "h2" {
        var headingText := GetStrippedText(child, " ");
        ignoringAfter := headingText in SkipSections;
      }
      if !ignoringAfter {
        block := ConvertBlock(child);
      }
    }
  }

  /** The body of the first `i + 1` siblings extends that of the first `i`. */
  lemma BodyStep(ns: seq<Node>, i: nat)
    requires i < |ns|
    ensures SectionFlag(false, ns[..i + 1]) == NextFlag(SectionFlag(false, ns[..i]), ns[i])
    ensures Body(ns[..i + 1]) == Body(ns[..i])
              + (if Renders(SectionFlag(false, ns[..i]), ns[i]) then BlockLines(ns[i]) else [])
  {
    var init := ns[..i];
    var n := ns[i];
    assert ns[..i + 1] == init + [n];
    KeptSnoc(false, init, n);
    var before := Kept(false, init);
    if Renders(SectionFlag(false, init), n) {
      assert Kept(false, init + [n]) == before + [n];
      RenderedSnoc(before, n);
    } else {
      assert Kept(false, init + [n]) == before + [];
      assert before + [] == before;
    }
  }

  /** `html_to_markdown`, from the located article body and first `h1` on. */
  method HtmlToMarkdown(content: Option<Node>, h1: Option<Node>, csvTitle: string, url: string, date: Date)
    returns (r: Option<string>)
    ensures r == Document(content, h1, csvTitle, url, date)
  {
    if content.None? {
      return None;
    }
    var articleTitle := ArticleTitle(h1, csvTitle);
    var header := Header(csvTitle, url, IsoFormat(date), articleTitle);
    var lines := header;
    var ignoreSection := false;
    var kids := Children(content.value);
    var i := 0;
    while i < |kids|
      invariant 0 <= i <= |kids|
      invariant ignoreSection == SectionFlag(false, kids[..i])
      invariant lines == header + Body(kids[..i])
    {
      var flag, block := VisitChild(kids[i], ignoreSection);
      BodyStep(kids, i);
      AppendAssoc(header, Body(kids[..i]), block);
      ignoreSection := flag;
      lines := lines + block;
      i := i + 1;
    }
    assert kids[..|kids|] == kids;
    r := Some(TrimRight(Join("\n", lines)) + "\n");
  }
}
