/**
 * `convert_list`: a `ul`/`ol` element rendered as Markdown list items, with
 * nested lists indented by two spaces per level and the depth clamped at 2.
 * `ListLines` specifies the result; `ConvertList` computes it the way the
 * script does, with a counter, a partition of each item's children and an
 * output list that grows in place.
 */
module Lists {
  import opened Text
  import opened Tree
  import opened InlineRenderer

  predicate IsItem(n: Node) {
    n.Elem? && n.name == "li"
  }

  predicate IsListTag(n: Node) {
    n.Elem? && (n.name == "ul" || n.name == "ol")
  }

  predicate IsOrdered(n: Node) {
    n.Elem? && n.name == "ol"
  }

  /** `tag.find_all("li", recursive=False)`: the `li` children, in order. */
  function DirectItems(ns: seq<Node>): (r: seq<Node>)
    ensures forall i :: 0 <= i < |r| ==> r[i] in ns && IsItem(r[i])
  {
    if ns == [] then [] else DirectItems(ns[..|ns| - 1]) + (if IsItem(ns[|ns| - 1]) then [ns[|ns| - 1]] else [])
  }

  /** The nested `ul`/`ol` children of an item. */
  function SubLists(ns: seq<Node>): (r: seq<Node>)
    ensures forall i :: 0 <= i < |r| ==> r[i] in ns && IsListTag(r[i])
  {
    if ns == [] then [] else SubLists(ns[..|ns| - 1]) + (if IsListTag(ns[|ns| - 1]) then [ns[|ns| - 1]] else [])
  }

  /** The other children of an item, which make up its text. */
  function InlineChildren(ns: seq<Node>): (r: seq<Node>)
    ensures forall i :: 0 <= i < |r| ==> r[i] in ns && !IsListTag(r[i])
  {
    if ns == [] then [] else InlineChildren(ns[..|ns| - 1]) + (if IsListTag(ns[|ns| - 1]) then [] else [ns[|ns| - 1]])
  }

  /** `f"{index}."` for an ordered list, `"-"` otherwise. */
  function Marker(ordered: bool, pos: nat): (m: string)
    ensures m != [] && (m[0] == '-' || IsDigit(m[0]))
    ensures !ordered ==> m == "-"
    ensures ordered ==> m[|m| - 1] == '.' && AllDigits(m[..|m| - 1]) && DigitsValue(m[..|m| - 1]) == pos
  {
    if ordered then
      var d := NatToString(pos);
      NatToStringValue(pos);
      assert (d + ".")[..|d|] == d;
      d + "."
    else "-"
  }

  /** `"  " * level`. */
  function Indent(level: nat): (r: string)
    ensures r == Repeat(' ', 2 * level)
  {
    if level == 0 then [] else "  " + Indent(level - 1)
  }

  /** `min(indent + 1, 2)`: nested lists go one level deeper, but never past level 2. */
  function NextIndent(indent: nat): (r: nat)
    ensures r <= 2 && (indent < 2 ==> r == indent + 1)
    ensures indent >= 2 ==> r == 2
  {
    if indent + 1 < 2 then indent + 1 else 2
  }

  function Min(a: nat, b: nat): nat { if a < b then a else b }
  function Max(a: nat, b: nat): nat { if a < b then b else a }

  /** The stripped inline rendering of an item's non-list children. */
  function ItemText(li: Node): string {
    Strip(InlineSeq(InlineChildren(Children(li)), "li"))
  }

  /** One item line: indentation, marker, one space, the item text. */
  function ItemLine(indent: nat, ordered: bool, pos: nat, text: string): string {
    Indent(indent) + Marker(ordered, pos) + " " + text
  }

  /**
   * A line a list at `indent` may emit: a blank separator, or an item line whose
   * indentation is an even number of spaces for a level between `indent` and 2
   * (or `indent` itself, were it above 2), followed by a marker.
   */
  predicate ListLine(line: string, indent: nat) {
    || line == ""
    || (var k := CountLeading(line, ' ');
        && k % 2 == 0
        && 2 * Min(indent, 2) <= k <= 2 * Max(indent, 2)
        && k < |line| && (line[k] == '-' || IsDigit(line[k])))
  }

  lemma ItemLineShape(indent: nat, ordered: bool, pos: nat, text: string)
    ensures ListLine(ItemLine(indent, ordered, pos, text), indent)
  {
    var m := Marker(ordered, pos);
    var rest := m + " " + text;
    var pad := Repeat(' ', 2 * indent);
    var line := ItemLine(indent, ordered, pos, text);
    assert line == pad + rest;
    assert rest[0] == m[0];
    CountLeadingOfRepeat(' ', 2 * indent, rest);
    assert line[2 * indent] == m[0];
  }

  // ---------------------------------------------------------------------------
  // Specification
  // ---------------------------------------------------------------------------

  /** The `li` children of a list. */
  function Items(list: Node): seq<Node> {
    DirectItems(Children(list))
  }

  /**
   * What a list renders from: whether it is numbered, and for each `li` child
   * its stripped text and its nested lists.
   */
  datatype Outline = Outline(ordered: bool, entries: seq<Entry>)
  datatype Entry = Entry(text: string, subs: seq<Outline>)

  /** The outline of `list`, numbered when `ordered`; nested lists are numbered when they are `ol`. */
  function Outlined(list: Node, ordered: bool): (o: Outline)
    ensures o.ordered == ordered && |o.entries| == |Items(list)|
    decreases list, 0
  {
    var items := Items(list);
    Outline(ordered, seq(|items|, i requires 0 <= i < |items| => EntryOf(items[i])))
  }

  /** An item's entry: its stripped inline text and the outlines of its nested lists. */
  function EntryOf(li: Node): Entry
    decreases li, 2
  {
    Entry(ItemText(li), SubOutlines(li))
  }

  /** The outlines of an item's nested lists, each numbered when it is an `ol`. */
  function SubOutlines(li: Node): (os: seq<Outline>)
    ensures |os| == |SubLists(Children(li))|
    decreases li, 1
  {
    var subs := SubLists(Children(li));
    seq(|subs|, i requires 0 <= i < |subs| => Outlined(subs[i], IsOrdered(subs[i])))
  }

  /** The lines of a list outline at level `indent`: its entries' lines, then a blank line unless there are none. */
  function OutlineLines(o: Outline, indent: nat): (r: seq<string>)
    ensures r == [] || r[|r| - 1] == ""
    decreases o, 2
  {
    var body := EntriesLines(o, |o.entries|, indent);
    if body == [] then [] else body + [""]
  }

  /** The lines of the first `k` entries; the `i`-th entry is item number `i + 1`. */
  function EntriesLines(o: Outline, k: nat, indent: nat): seq<string>
    requires k <= |o.entries|
    decreases o, 1, k
  {
    if k == 0 then []
    else
      assert o.entries[k - 1] in o.entries;
      EntriesLines(o, k - 1, indent) + EntryLines(o.entries[k - 1], k, indent, o.ordered)
  }

  /** The item's own line when its text is not empty, then its nested lists one level deeper. */
  function EntryLines(e: Entry, pos: nat, indent: nat, ordered: bool): seq<string>
    decreases e, 1
  {
    (if e.text != [] then [ItemLine(indent, ordered, pos, e.text)] else [])
    + SubsLines(e.subs, |e.subs|, NextIndent(indent))
  }

  /** The lines of the first `j` nested lists. */
  function SubsLines(subs: seq<Outline>, j: nat, indent: nat): seq<string>
    requires j <= |subs|
    decreases subs, 0, j
  {
    if j == 0 then []
    else
      SubsLines(subs, j - 1, indent) + OutlineLines(subs[j - 1], indent)
  }

  /** The lines `convert_list(list, indent, ordered)` returns. */
  function ListLines(list: Node, indent: nat, ordered: bool): seq<string> {
    OutlineLines(Outlined(list, ordered), indent)
  }

  // ---------------------------------------------------------------------------
  // Properties
  // ---------------------------------------------------------------------------

  /**
   * The outline follows the tree: one entry per `li` child, in order, with the
   * item's stripped inline text and one outline per nested list, numbered
   * when that list is an `ol`.
   */
  lemma OutlinedFollowsTree(list: Node, ordered: bool, k: nat)
    requires k < |Items(list)|
    ensures var li := Items(list)[k];
            var e := Outlined(list, ordered).entries[k];
            var subs := SubLists(Children(li));
            && e.text == ItemText(li)
            && |e.subs| == |subs|
            && forall i :: 0 <= i < |subs| ==> e.subs[i] == Outlined(subs[i], IsOrdered(subs[i]))
  {
    var li := Items(list)[k];
    assert Outlined(list, ordered).entries[k] == EntryOf(li);
  }

  /**
   * Nested lines of a list that starts at level `indent` stay within what
   * `ListLine` allows at `indent`, since the next level is clamped to 2.
   */
  lemma NestedLineFits(line: string, indent: nat)
    requires ListLine(line, NextIndent(indent))
    ensures ListLine(line, indent)
  {
  }

  /** The lines of the first `k` entries are the start of the lines of the first `m`. */
  lemma {:induction false} EntriesLinesPrefix(o: Outline, k: nat, m: nat, indent: nat)
    requires k <= m <= |o.entries|
    ensures var a := EntriesLines(o, k, indent);
            var b := EntriesLines(o, m, indent);
            |a| <= |b| && b[..|a|] == a
    decreases m - k
  {
    if k < m {
      EntriesLinesPrefix(o, k, m - 1, indent);
      var b := EntriesLines(o, m - 1, indent);
      TakeAppend(b, EntryLines(o.entries[m - 1], m, indent, o.ordered), |EntriesLines(o, k, indent)|);
    }
  }

  /** In a bulleted list every item line is the indentation, `- ` and the text. */
  lemma UnorderedItemLine(indent: nat, pos: nat, text: string)
    ensures ItemLine(indent, false, pos, text) == Indent(indent) + "- " + text
  {
    assert Indent(indent) + "-" + " " + text == Indent(indent) + "- " + text;
  }

  lemma OrderedItemLine(indent: nat, pos: nat, text: string)
    ensures ItemLine(indent, true, pos, text) == Indent(indent) + NatToString(pos) + ". " + text
  {
    var i := Indent(indent);
    var n := NatToString(pos);
    assert i + (n + ".") + " " == i + n + ". ";
  }

  /**
   * In a numbered list, an entry with text is numbered by its position, and
   * its line comes right after the lines of the entries before it.
   */
  lemma OrderedMarker(o: Outline, k: nat, indent: nat)
    requires o.ordered && k < |o.entries| && o.entries[k].text != []
    ensures var ls := OutlineLines(o, indent);
            var at := |EntriesLines(o, k, indent)|;
            at < |ls| && ls[at] == Indent(indent) + NatToString(k + 1) + ". " + o.entries[k].text
  {
    var before := EntriesLines(o, k, indent);
    var upTo := EntriesLines(o, k + 1, indent);
    var all := EntriesLines(o, |o.entries|, indent);
    var text := o.entries[k].text;
    var line := ItemLine(indent, true, k + 1, text);
    assert upTo == before + EntryLines(o.entries[k], k + 1, indent, true);
    assert upTo[|before|] == line;
    EntriesLinesPrefix(o, k + 1, |o.entries|, indent);
    IndexInPrefix(all, upTo, |before|);
    OrderedItemLine(indent, k + 1, text);
  }

  /**
   * Every line of a list at level `indent` is a blank separator or an item
   * line indented for a level between `indent` and 2: nesting deeper than two
   * levels below the top is flattened onto level 2.
   */
  lemma {:induction false} OutlineLinesShape(o: Outline, indent: nat)
    ensures forall line | line in OutlineLines(o, indent) :: ListLine(line, indent)
    decreases o, 2
  {
    EntriesLinesShape(o, |o.entries|, indent);
  }

  lemma {:induction false} EntriesLinesShape(o: Outline, k: nat, indent: nat)
    requires k <= |o.entries|
    ensures forall line | line in EntriesLines(o, k, indent) :: ListLine(line, indent)
    decreases o, 1, k
  {
    if k > 0 {
      assert o.entries[k - 1] in o.entries;
      EntryLinesShape(o.entries[k - 1], k, indent, o.ordered);
      EntriesLinesShape(o, k - 1, indent);
    }
  }

  lemma {:induction false} EntryLinesShape(e: Entry, pos: nat, indent: nat, ordered: bool)
    ensures forall line | line in EntryLines(e, pos, indent, ordered) :: ListLine(line, indent)
    decreases e, 1
  {
    var next := NextIndent(indent);
    ItemLineShape(indent, ordered, pos, e.text);
    SubsLinesShape(e.subs, |e.subs|, next);
    forall line | line in SubsLines(e.subs, |e.subs|, next)
      ensures ListLine(line, indent)
    {
      NestedLineFits(line, indent);
    }
  }

  lemma {:induction false} SubsLinesShape(subs: seq<Outline>, j: nat, indent: nat)
    requires j <= |subs|
    ensures forall line | line in SubsLines(subs, j, indent) :: ListLine(line, indent)
    decreases subs, 0, j
  {
    if j > 0 {
      OutlineLinesShape(subs[j - 1], indent);
      SubsLinesShape(subs, j - 1, indent);
    }
  }

  /** At the top level every item line is indented by 0, 2 or 4 spaces, however deep the nesting. */
  lemma TopLevelIndentation(list: Node, ordered: bool, line: string)
    requires line in ListLines(list, 0, ordered) && line != ""
    ensures CountLeading(line, ' ') in {0, 2, 4}
  {
    OutlineLinesShape(Outlined(list, ordered), 0);
    assert ListLine(line, 0);
  }

  // ---------------------------------------------------------------------------
  // The converter
  // ---------------------------------------------------------------------------

  /** Splitting an item's children into its nested lists and its inline content. */
  method PartitionChildren(kids: seq<Node>) returns (subLists: seq<Node>, inlineChildren: seq<Node>)
    ensures subLists == SubLists(kids) && inlineChildren == InlineChildren(kids)
  {
    subLists := [];
    inlineChildren := [];
    var j := 0;
    while j < |kids|
      invariant 0 <= j <= |kids|
      invariant subLists == SubLists(kids[..j])
      invariant inlineChildren == InlineChildren(kids[..j])
    {
      var child := kids[j];
      assert kids[..j + 1][..j] == kids[..j];
      if IsListTag(child) {
        subLists := subLists + [child];
      } else {
        inlineChildren := inlineChildren + [child];
      }
      j := j + 1;
    }
    assert kids[..|kids|] == kids;
  }

  /** An item of a list is below it in the tree. */
  lemma ItemBelow(list: Node, k: nat)
    requires k < |Items(list)|
    ensures Items(list)[k] < list
  {
    assert Items(list)[k] in Children(list);
  }

  /** A nested list of an item is below it in the tree. */
  lemma SubListBelow(li: Node, s: nat)
    requires s < |SubLists(Children(li))|
    ensures SubLists(Children(li))[s] < li
  {
    assert SubLists(Children(li))[s] in Children(li);
  }

  /** `convert_list(tag, indent, ordered)`. */
  method ConvertList(tag: Node, indent: nat, ordered: bool) returns (lines: seq<string>)
    ensures lines == ListLines(tag, indent, ordered)
    decreases tag, 2
  {
    ghost var o := Outlined(tag, ordered);
    lines := [];
    var index := 1;
    var items := Items(tag);
    var k := 0;
    while k < |items|
      invariant 0 <= k <= |items|
      invariant index == k + 1
      invariant lines == EntriesLines(o, k, indent)
    {
      var li := items[k];
      ItemBelow(tag, k);
      var itemLines := ConvertItem(li, index, indent, ordered);
      lines := lines + itemLines;
      index := index + 1;
      k := k + 1;
    }
    if lines != [] {
      lines := lines + [""];
    }
  }

  /** The body of the item loop of `convert_list`: one `li`, its line, then its nested lists. */
  method ConvertItem(li: Node, index: nat, indent: nat, ordered: bool) returns (lines: seq<string>)
    ensures lines == EntryLines(EntryOf(li), index, indent, ordered)
    decreases li, 1
  {
    var subLists, inlineChildren := PartitionChildren(Children(li));
    var itemText := Strip(InlineSeq(inlineChildren, "li"));
    var marker := Marker(ordered, index);
    lines := [];
    if itemText != [] {
      lines := [Indent(indent) + marker + " " + itemText];
    }
    var subLines := ConvertSubLists(li, subLists, NextIndent(indent));
    lines := lines + subLines;
  }

  /** The loop of `convert_list` over an item's nested lists, each one level deeper. */
  method ConvertSubLists(li: Node, subLists: seq<Node>, indent: nat) returns (lines: seq<string>)
    requires subLists == SubLists(Children(li))
    ensures lines == SubsLines(SubOutlines(li), |subLists|, indent)
    decreases li, 0
  {
    lines := [];
    var s := 0;
    while s < |subLists|
      invariant 0 <= s <= |subLists|
      invariant lines == SubsLines(SubOutlines(li), s, indent)
    {
      var sub := subLists[s];
      SubListBelow(li, s);
      var subLines := ConvertList(sub, indent, IsOrdered(sub));
      SubsLinesStep(li, s, indent, subLines);
      lines := lines + subLines;
      s := s + 1;
    }
  }

  lemma SubsLinesStep(li: Node, s: nat, indent: nat, subLines: seq<string>)
    requires s < |SubLists(Children(li))|
    requires var sub := SubLists(Children(li))[s]; subLines == ListLines(sub, indent, IsOrdered(sub))
    ensures SubsLines(SubOutlines(li), s + 1, indent) == SubsLines(SubOutlines(li), s, indent) + subLines
  {
  }

  /** `DirectItems` is exactly the `li` children: in order, each as often as it occurs, and nothing else. */
  lemma DirectItemsExact(ns: seq<Node>)
    ensures Subseq(DirectItems(ns), ns)
    ensures forall i :: 0 <= i < |ns| && IsItem(ns[i]) ==> ns[i] in DirectItems(ns)
    ensures forall x :: Occurrences(DirectItems(ns), x) == if IsItem(x) then Occurrences(ns, x) else 0
  {
    DirectItemsOrdered(ns);
    DirectItemsCount(ns);
  }

  lemma {:induction false} DirectItemsOrdered(ns: seq<Node>)
    ensures Subseq(DirectItems(ns), ns)
    ensures forall i :: 0 <= i < |ns| && IsItem(ns[i]) ==> ns[i] in DirectItems(ns)
    decreases |ns|
  {
    if ns != [] {
      var init := ns[..|ns| - 1];
      var n := ns[|ns| - 1];
      var tail: seq<Node> := if IsItem(n) then [n] else [];
      assert DirectItems(ns) == DirectItems(init) + tail;
      assert ns == init + [n];
      DirectItemsOrdered(init);
      if IsItem(n) {
        SubseqRefl([n]);
      }
      SubseqConcat(DirectItems(init), init, tail, [n]);
      forall i | 0 <= i < |ns| && IsItem(ns[i]) ensures ns[i] in DirectItems(ns) {
        if i < |init| {
          assert ns[i] == init[i] && ns[i] in DirectItems(init);
        }
      }
    }
  }

  /** `SubLists` is exactly the `ul`/`ol` children: in order, each as often as it occurs, and nothing else. */
  lemma SubListsExact(ns: seq<Node>)
    ensures Subseq(SubLists(ns), ns)
    ensures forall i :: 0 <= i < |ns| && IsListTag(ns[i]) ==> ns[i] in SubLists(ns)
    ensures forall x :: Occurrences(SubLists(ns), x) == if IsListTag(x) then Occurrences(ns, x) else 0
  {
    SubListsOrdered(ns);
    SubListsCount(ns);
  }

  lemma {:induction false} SubListsOrdered(ns: seq<Node>)
    ensures Subseq(SubLists(ns), ns)
    ensures forall i :: 0 <= i < |ns| && IsListTag(ns[i]) ==> ns[i] in SubLists(ns)
    decreases |ns|
  {
    if ns != [] {
      var init := ns[..|ns| - 1];
      var n := ns[|ns| - 1];
      var tail: seq<Node> := if IsListTag(n) then [n] else [];
      assert SubLists(ns) == SubLists(init) + tail;
      assert ns == init + [n];
      SubListsOrdered(init);
      if IsListTag(n) {
        SubseqRefl([n]);
      }
      SubseqConcat(SubLists(init), init, tail, [n]);
      forall i | 0 <= i < |ns| && IsListTag(ns[i]) ensures ns[i] in SubLists(ns) {
        if i < |init| {
          assert ns[i] == init[i] && ns[i] in SubLists(init);
        }
      }
    }
  }

  /** `InlineChildren` is exactly the children that are not `ul`/`ol`: in order, each as often as it occurs. */
  lemma InlineChildrenExact(ns: seq<Node>)
    ensures Subseq(InlineChildren(ns), ns)
    ensures forall i :: 0 <= i < |ns| && !IsListTag(ns[i]) ==> ns[i] in InlineChildren(ns)
    ensures forall x :: Occurrences(InlineChildren(ns), x) == if !IsListTag(x) then Occurrences(ns, x) else 0
  {
    InlineChildrenOrdered(ns);
    InlineChildrenCount(ns);
  }

  lemma {:induction false} InlineChildrenOrdered(ns: seq<Node>)
    ensures Subseq(InlineChildren(ns), ns)
    ensures forall i :: 0 <= i < |ns| && !IsListTag(ns[i]) ==> ns[i] in InlineChildren(ns)
    decreases |ns|
  {
    if ns != [] {
      var init := ns[..|ns| - 1];
      var n := ns[|ns| - 1];
      var tail: seq<Node> := if !IsListTag(n) then [n] else [];
      assert InlineChildren(ns) == InlineChildren(init) + tail;
      assert ns == init + [n];
      InlineChildrenOrdered(init);
      if !IsListTag(n) {
        SubseqRefl([n]);
      }
      SubseqConcat(InlineChildren(init), init, tail, [n]);
      forall i | 0 <= i < |ns| && !IsListTag(ns[i]) ensures ns[i] in InlineChildren(ns) {
        if i < |init| {
          assert ns[i] == init[i] && ns[i] in InlineChildren(init);
        }
      }
    }
  }

  /** `DirectItems` keeps every `li` child as often as it occurs, and nothing else. */
  lemma DirectItemsCount(ns: seq<Node>)
    ensures forall x :: Occurrences(DirectItems(ns), x) == if IsItem(x) then Occurrences(ns, x) else 0
  {
    forall x {
      DirectItemsCountOf(ns, x);
    }
  }

  lemma {:induction false} DirectItemsCountOf(ns: seq<Node>, x: Node)
    ensures Occurrences(DirectItems(ns), x) == if IsItem(x) then Occurrences(ns, x) else 0
    decreases |ns|
  {
    if ns != [] {
      var init := ns[..|ns| - 1];
      var n := ns[|ns| - 1];
      assert ns == init + [n];
      DirectItemsCountOf(init, x);
      assert DirectItems(ns) == DirectItems(init) + (if IsItem(n) then [n] else []);
      OccurrencesFilterSnoc(DirectItems(init), init, n, x, IsItem(n), IsItem(x));
    }
  }

  /** `SubLists` keeps every `ul`/`ol` child as often as it occurs, and nothing else. */
  lemma SubListsCount(ns: seq<Node>)
    ensures forall x :: Occurrences(SubLists(ns), x) == if IsListTag(x) then Occurrences(ns, x) else 0
  {
    forall x {
      SubListsCountOf(ns, x);
    }
  }

  lemma {:induction false} SubListsCountOf(ns: seq<Node>, x: Node)
    ensures Occurrences(SubLists(ns), x) == if IsListTag(x) then Occurrences(ns, x) else 0
    decreases |ns|
  {
    if ns != [] {
      var init := ns[..|ns| - 1];
      var n := ns[|ns| - 1];
      assert ns == init + [n];
      SubListsCountOf(init, x);
      assert SubLists(ns) == SubLists(init) + (if IsListTag(n) then [n] else []);
      OccurrencesFilterSnoc(SubLists(init), init, n, x, IsListTag(n), IsListTag(x));
    }
  }

  /** `InlineChildren` keeps every child that is not `ul`/`ol` as often as it occurs, and nothing else. */
  lemma InlineChildrenCount(ns: seq<Node>)
    ensures forall x :: Occurrences(InlineChildren(ns), x) == if !IsListTag(x) then Occurrences(ns, x) else 0
  {
    forall x {
      InlineChildrenCountOf(ns, x);
    }
  }

  lemma {:induction false} InlineChildrenCountOf(ns: seq<Node>, x: Node)
    ensures Occurrences(InlineChildren(ns), x) == if !IsListTag(x) then Occurrences(ns, x) else 0
    decreases |ns|
  {
    if ns != [] {
      var init := ns[..|ns| - 1];
      var n := ns[|ns| - 1];
      assert ns == init + [n];
      InlineChildrenCountOf(init, x);
      assert InlineChildren(ns) == InlineChildren(init) + (if !IsListTag(n) then [n] else []);
      OccurrencesFilterSnoc(InlineChildren(init), init, n, x, !IsListTag(n), !IsListTag(x));
    }
  }
}
