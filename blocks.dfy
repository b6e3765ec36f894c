/**
 * The block renderers other than lists: `convert_heading`,
 * `convert_paragraph`, `convert_blockquote` and `convert_code_block`.
 * Each turns one block element into the Markdown lines it contributes,
 * ending in a blank separator line, or into no lines at all.
 */
module Blocks {
  import opened Wrappers
  import opened Text
  import opened Tree
  import opened InlineRenderer

  // ---------------------------------------------------------------------------
  // Headings
  // ---------------------------------------------------------------------------

  /** `max(1, min(6, int(name[1])))`: the digit of `hN`, clamped to 1..6. */
  function HeadingLevel(name: string): (level: nat)
    requires |name| >= 2 && IsDigit(name[1])
    ensures 1 <= level <= 6
    ensures var d := name[1] as int - '0' as int;
            && (1 <= d <= 6 ==> level == d)
            && (d < 1 ==> level == 1)
            && (d > 6 ==> level == 6)
  {
    var d := name[1] as int - '0' as int;
    if d < 1 then 1 else if d > 6 then 6 else d
  }

  datatype Heading = Heading(level: nat, text: string)

  /** Reading a Markdown ATX heading line back: a run of 1..6 `#`, one space, the text. */
  function ParseAtxHeading(line: string): (r: Option<Heading>)
    ensures r.Some? ==> 1 <= r.value.level <= 6 && line == Repeat('#', r.value.level) + " " + r.value.text
  {
    var k := CountLeading(line, '#');
    if 1 <= k <= 6 && k < |line| && line[k] == ' ' then
      assert line == line[..k] + [line[k]] + line[k + 1..];
      Some(Heading(k, line[k + 1..]))
    else None
  }

  /** The text of a heading, paragraph or quote: its children's inline rendering, stripped. */
  function BlockText(tag: Node): (t: string)
    requires tag.Elem?
  {
    Strip(InlineSeq(tag.children, tag.name))
  }

  /**
   * `convert_heading`: no lines for an empty heading; otherwise a heading line
   * that reads back as the clamped level and the text, then a blank line.
   */
  function ConvertHeading(tag: Node): (r: seq<string>)
    requires tag.Elem? && |tag.name| >= 2 && IsDigit(tag.name[1])
    ensures r == [] <==> BlockText(tag) == []
    ensures r != [] ==> |r| == 2 && r[1] == ""
    ensures r != [] ==> ParseAtxHeading(r[0]) == Some(Heading(HeadingLevel(tag.name), BlockText(tag)))
  {
    var text := BlockText(tag);
    if text == [] then []
    else
      var level := HeadingLevel(tag.name);
      var line := Repeat('#', level) + " " + text;
      CountLeadingOfRepeat('#', level, " " + text);
      assert line == Repeat('#', level) + (" " + text);
      assert line[level + 1..] == text;
      [line, ""]
  }

  // ---------------------------------------------------------------------------
  // Paragraphs
  // ---------------------------------------------------------------------------

  /** `convert_paragraph`: the stripped inline text and a blank line, or nothing when it is blank. */
  function ConvertParagraph(tag: Node): (r: seq<string>)
    requires tag.Elem?
    ensures r == [] <==> AllSpace(InlineSeq(tag.children, tag.name))
    ensures r != [] ==> |r| == 2 && r[1] == "" && r[0] != [] && Trimmed(r[0])
    ensures r != [] ==> r[0] == Strip(InlineSeq(tag.children, tag.name))
  {
    var inline := InlineSeq(tag.children, tag.name);
    var text := Strip(inline);
    if text != [] then [text, ""] else []
  }

  /** A citation marker anywhere in a paragraph contributes nothing to it. */
  lemma ReferenceInParagraph(name: string, classes: seq<string>, attrs: map<string, string>,
                             xs: seq<Node>, ref: Node, ys: seq<Node>)
    requires IsDropped(ref)
    ensures ConvertParagraph(Elem(name, classes, attrs, xs + [ref] + ys))
         == ConvertParagraph(Elem(name, classes, attrs, xs + ys))
  {
    InlineSeqAppend(xs + [ref], ys, name);
    InlineSeqAppend(xs, [ref], name);
    InlineSeqAppend(xs, ys, name);
    assert InlineSeq([ref], name) == "";
    assert InlineSeq(xs + [ref] + ys, name) == InlineSeq(xs + ys, name);
  }

  /** Blank text runs and dropped elements only. */
  predicate BlankInline(n: Node) {
    (n.TextRun? && AllSpace(n.text)) || IsDropped(n)
  }

  lemma {:induction false} BlankInlineSeq(ns: seq<Node>, parent: string)
    requires forall i :: 0 <= i < |ns| ==> BlankInline(ns[i])
    ensures AllSpace(InlineSeq(ns, parent))
  {
    if ns != [] {
      BlankInlineSeq(ns[1..], parent);
      var a := Inline(ns[0], parent);
      var b := InlineSeq(ns[1..], parent);
      assert forall k :: 0 <= k < |a + b| ==> (a + b)[k] == if k < |a| then a[k] else b[k - |a|];
    }
  }

  /** A paragraph made only of whitespace and citation markers renders no lines. */
  lemma EmptyParagraphElided(tag: Node)
    requires tag.Elem?
    requires forall i :: 0 <= i < |tag.children| ==> BlankInline(tag.children[i])
    ensures ConvertParagraph(tag) == []
  {
    BlankInlineSeq(tag.children, tag.name);
  }

  // ---------------------------------------------------------------------------
  // Block quotes
  // ---------------------------------------------------------------------------

  /** `"> " + line` for every line. */
  function Quote(lines: seq<string>): (r: seq<string>)
    ensures |r| == |lines|
    ensures forall i :: 0 <= i < |r| ==> r[i] == "> " + lines[i]
    ensures forall i :: 0 <= i < |r| ==> |r[i]| == |lines[i]| + 2 && r[i][..2] == "> " && r[i][2..] == lines[i]
  {
    if lines == [] then []
    else
      var q := "> " + lines[0];
      assert q[..2] == "> " && q[2..] == lines[0];
      [q] + Quote(lines[1..])
  }

  /**
   * `convert_blockquote`: the non-blank lines of the stripped inline text,
   * each stripped and quoted with `"> "`, then a blank line.
   */
  function ConvertBlockquote(tag: Node): (r: seq<string>)
    requires tag.Elem?
    ensures r == [] <==> BlockText(tag) == []
    ensures r != [] ==> |r| >= 2 && r[|r| - 1] == ""
    ensures r != [] ==> |r| - 1 == |NonBlankStripped(SplitLines(BlockText(tag)))|
    ensures forall i :: 0 <= i < |r| - 1 ==>
              && |r[i]| > 2 && r[i][..2] == "> "
              && r[i][2..] != [] && Trimmed(r[i][2..])
              && r[i][2..] == NonBlankStripped(SplitLines(BlockText(tag)))[i]
  {
    var text := BlockText(tag);
    if text == [] then []
    else
      var kept := NonBlankStripped(SplitLines(text));
      SplitLinesFirstNonBlank(text);
      assert kept != [];
      Quote(kept) + [""]
  }

  // ---------------------------------------------------------------------------
  // Preformatted blocks
  // ---------------------------------------------------------------------------

  /**
   * `convert_code_block`: the raw text (runs joined by line breaks) with its
   * trailing line breaks removed, fenced by two ``` lines, then a blank line.
   */
  function ConvertCodeBlock(tag: Node): (r: seq<string>)
    ensures |r| == 4 && r[0] == "```" && r[2] == "```" && r[3] == ""
    ensures var raw := GetText(tag, "\n");
            && |r[1]| <= |raw| && r[1] == raw[..|r[1]|]
            && AllChar(raw[|r[1]|..], '\n')
            && (r[1] == [] || r[1][|r[1]| - 1] != '\n')
  {
    var content := RStripChar(GetText(tag, "\n"), '\n');
    ["```", content, "```", ""]
  }
}
