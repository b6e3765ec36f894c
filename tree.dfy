/**
 * The parsed article tree handed to the converter: a tag with its class
 * tokens, its other attributes and its ordered children, or a run of text.
 * Only the text extraction the converter asks of the parser (`get_text`) is
 * modelled here; searching the tree is left to the caller.
 */
module Tree {
  import opened Wrappers
  import opened Text

  datatype Node =
    | TextRun(text: string)
    | Elem(name: string, classes: seq<string>, attrs: map<string, string>, children: seq<Node>)

  /** The children of a tag; a text run has none. */
  function Children(n: Node): seq<Node> {
    if n.Elem? then n.children else []
  }

  /** `tag.get(key)` for an attribute other than `class`. */
  function Attr(n: Node, key: string): (r: Option<string>)
    ensures r.Some? <==> n.Elem? && key in n.attrs
    ensures r.Some? ==> n.Elem? && r.value == n.attrs[key]
  {
    if n.Elem? && key in n.attrs then Some(n.attrs[key]) else None
  }

  /** Every text run below `n`, in document order (what `get_text` collects). */
  function Strings(n: Node): seq<string>
    decreases n, 1
  {
    match n
    case TextRun(s) => [s]
    case Elem(_, _, _, kids) => StringsOf(kids)
  }

  function StringsOf(ns: seq<Node>): seq<string>
    decreases ns, 0
  {
    if ns == [] then [] else Strings(ns[0]) + StringsOf(ns[1..])
  }

  /** The stripped, non-blank members of `ss`, in order. */
  function NonBlankStripped(ss: seq<string>): (r: seq<string>)
    ensures |r| <= |ss|
    ensures forall i :: 0 <= i < |r| ==> r[i] != [] && Trimmed(r[i])
  {
    if ss == [] then []
    else
      var t := Strip(ss[0]);
      (if t == [] then [] else [t]) + NonBlankStripped(ss[1..])
  }

  /**
   * `NonBlankStripped` keeps every line whose strip is non-empty, as that
   * strip, in order: one more line adds exactly its strip, or nothing.
   */
  lemma {:induction false} NonBlankStrippedSnoc(ss: seq<string>, s: string)
    ensures NonBlankStripped(ss + [s])
         == NonBlankStripped(ss) + (if Strip(s) == [] then [] else [Strip(s)])
    decreases |ss|
  {
    var last: seq<string> := if Strip(s) == [] then [] else [Strip(s)];
    if ss == [] {
      assert [s][1..] == [];
      assert NonBlankStripped([s]) == last + NonBlankStripped([]);
    } else {
      var t := Strip(ss[0]);
      var head: seq<string> := if t == [] then [] else [t];
      assert (ss + [s])[0] == ss[0];
      assert (ss + [s])[1..] == ss[1..] + [s];
      assert NonBlankStripped(ss + [s]) == head + NonBlankStripped(ss[1..] + [s]);
      NonBlankStrippedSnoc(ss[1..], s);
      assert NonBlankStripped(ss) == head + NonBlankStripped(ss[1..]);
    }
  }

  /** `tag.get_text(sep)`: the text runs joined with `sep`. */
  function GetText(n: Node, sep: string): string {
    Join(sep, Strings(n))
  }

  /** `tag.get_text(sep, strip=True)`: the stripped, non-blank text runs joined with `sep`. */
  function GetStrippedText(n: Node, sep: string): string {
    Join(sep, NonBlankStripped(Strings(n)))
  }
}
