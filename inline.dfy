/**
 * `convert_inline`: a tree of inline nodes rendered as one Markdown string.
 * The renderer is told the tag name of the node's parent, which decides
 * whether a `code` element gets backticks (it does not inside `pre`).
 */
module InlineRenderer {
  import opened Wrappers
  import opened Text
  import opened Tree

  /** Citation superscripts and section-edit links, which render to nothing. */
  predicate IsDropped(n: Node) {
    && n.Elem?
    && ((n.name == "sup" && "reference" in n.classes)
        || (n.name == "span" && ("mw-editsection" in n.classes || "mw-editsection-visualeditor" in n.classes)))
  }

  /** The target of a link: its `href`, when that is present and not empty. */
  function LinkTarget(n: Node): (r: Option<string>)
    ensures r.Some? ==> r.value != []
    ensures r.Some? <==> Attr(n, "href").Some? && Attr(n, "href").value != []
    ensures r.Some? ==> r == Attr(n, "href")
  {
    match Attr(n, "href")
    case Some(h) => if h != [] then Some(h) else None
    case None => None
  }

  function Inline(n: Node, parent: string): string
    decreases n, 1
  {
    match n
    case TextRun(s) => s
    case Elem(name, _, _, kids) =>
      if IsDropped(n) then ""
      else
        var inner := InlineSeq(kids, name);
        if name == "b" || name == "strong" then "**" + inner + "**"
        else if name == "i" || name == "em" then "*" + inner + "*"
        else if name == "code" && parent != "pre" then "`" + inner + "`"
        else if name == "a" then
          (match LinkTarget(n)
           case Some(href) => "[" + inner + "](" + href + ")"
           case None => inner)
        else inner
  }

  /** `"".join(convert_inline(child) for child in children)`. */
  function InlineSeq(ns: seq<Node>, parent: string): string
    decreases ns, 0
  {
    if ns == [] then "" else Inline(ns[0], parent) + InlineSeq(ns[1..], parent)
  }

  /** The rendering rule of each inline tag, stated on the element itself. */
  lemma InlineRules(name: string, classes: seq<string>, attrs: map<string, string>, kids: seq<Node>, parent: string)
    ensures var n := Elem(name, classes, attrs, kids);
            var inner := InlineSeq(kids, name);
            && (name == "sup" && "reference" in classes ==> Inline(n, parent) == "")
            && (name == "span" && "mw-editsection" in classes ==> Inline(n, parent) == "")
            && (name == "span" && "mw-editsection-visualeditor" in classes ==> Inline(n, parent) == "")
            && (name in {"b", "strong"} ==> Inline(n, parent) == "**" + inner + "**")
            && (name in {"i", "em"} ==> Inline(n, parent) == "*" + inner + "*")
            && (name == "code" ==> Inline(n, parent) == if parent == "pre" then inner else "`" + inner + "`")
            && (name == "a" && "href" in attrs && attrs["href"] != [] ==>
                  Inline(n, parent) == "[" + inner + "](" + attrs["href"] + ")")
            && (name == "a" && ("href" !in attrs || attrs["href"] == []) ==> Inline(n, parent) == inner)
            && (!IsDropped(n) && name !in {"b", "strong", "i", "em", "code", "a"} ==> Inline(n, parent) == inner)
  {
  }

  /** Rendering a run of siblings distributes over concatenation. */
  lemma {:induction false} InlineSeqAppend(xs: seq<Node>, ys: seq<Node>, parent: string)
    ensures InlineSeq(xs + ys, parent) == InlineSeq(xs, parent) + InlineSeq(ys, parent)
  {
    if xs == [] {
      assert xs + ys == ys;
    } else {
      assert (xs + ys)[1..] == xs[1..] + ys;
      InlineSeqAppend(xs[1..], ys, parent);
    }
  }

  // ---------------------------------------------------------------------------
  // Reference definition: the visible text of a tree, and markup-free trees
  // ---------------------------------------------------------------------------

  /** The text runs of `n` that are not inside a dropped element, concatenated. */
  function Visible(n: Node): string
    decreases n, 1
  {
    match n
    case TextRun(s) => s
    case Elem(_, _, _, kids) => if IsDropped(n) then "" else VisibleSeq(kids)
  }

  function VisibleSeq(ns: seq<Node>): string
    decreases ns, 0
  {
    if ns == [] then "" else Visible(ns[0]) + VisibleSeq(ns[1..])
  }

  /** No element that adds Markdown syntax: no emphasis, no code span, no link with a target. */
  predicate MarkupFree(n: Node)
    decreases n, 1
  {
    match n
    case TextRun(_) => true
    case Elem(name, _, _, kids) =>
      IsDropped(n)
      || (&& name !in {"b", "strong", "i", "em", "code"}
          && (name == "a" ==> LinkTarget(n).None?)
          && MarkupFreeSeq(kids))
  }

  predicate MarkupFreeSeq(ns: seq<Node>)
    decreases ns, 0
  {
    ns == [] || (MarkupFree(ns[0]) && MarkupFreeSeq(ns[1..]))
  }

  /** Without formatting elements, the inline renderer yields exactly the visible text. */
  lemma {:induction false} InlinePlain(n: Node, parent: string)
    requires MarkupFree(n)
    ensures Inline(n, parent) == Visible(n)
    decreases n, 1
  {
    match n
    case TextRun(_) =>
    case Elem(name, _, _, kids) =>
      if !IsDropped(n) {
        InlineSeqPlain(kids, name);
      }
  }

  lemma {:induction false} InlineSeqPlain(ns: seq<Node>, parent: string)
    requires MarkupFreeSeq(ns)
    ensures InlineSeq(ns, parent) == VisibleSeq(ns)
    decreases ns, 0
  {
    if ns != [] {
      InlinePlain(ns[0], parent);
      InlineSeqPlain(ns[1..], parent);
    }
  }

  /**
   * The renderer never loses or reorders visible text: the visible text is a
   * subsequence of the rendering, which only adds markup around it.
   */
  lemma {:induction false} InlineKeepsText(n: Node, parent: string)
    ensures Subseq(Visible(n), Inline(n, parent))
    ensures |Inline(n, parent)| >= |Visible(n)|
    decreases n, 1
  {
    match n
    case TextRun(s) =>
      SubseqRefl(s);
    case Elem(name, _, _, kids) =>
      if !IsDropped(n) {
        InlineSeqKeepsText(kids, name);
        var inner := InlineSeq(kids, name);
        var v := VisibleSeq(kids);
        if name == "b" || name == "strong" {
          SubseqPrependLeft(v, "**", inner);
          SubseqAppendRight(v, "**" + inner, "**");
        } else if name == "i" || name == "em" {
          SubseqPrependLeft(v, "*", inner);
          SubseqAppendRight(v, "*" + inner, "*");
        } else if name == "code" && parent != "pre" {
          SubseqPrependLeft(v, "`", inner);
          SubseqAppendRight(v, "`" + inner, "`");
        } else if name == "a" && LinkTarget(n).Some? {
          var href := LinkTarget(n).value;
          SubseqPrependLeft(v, "[", inner);
          SubseqAppendRight(v, "[" + inner, "](");
          SubseqAppendRight(v, "[" + inner + "](", href);
          SubseqAppendRight(v, "[" + inner + "](" + href, ")");
        }
      }
  }

  lemma {:induction false} InlineSeqKeepsText(ns: seq<Node>, parent: string)
    ensures Subseq(VisibleSeq(ns), InlineSeq(ns, parent))
    ensures |InlineSeq(ns, parent)| >= |VisibleSeq(ns)|
    decreases ns, 0
  {
    if ns != [] {
      InlineKeepsText(ns[0], parent);
      InlineSeqKeepsText(ns[1..], parent);
      SubseqConcat(Visible(ns[0]), Inline(ns[0], parent), VisibleSeq(ns[1..]), InlineSeq(ns[1..], parent));
    }
  }
}
