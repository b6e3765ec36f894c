/**
 * The change detector reads back what the converter writes: the title and
 * source address in the frontmatter of a converted document are the ones
 * the converter was given.
 */
module RoundTrip {
  import opened Wrappers
  import opened Text
  import opened Tree
  import opened Converter
  import opened ChangeCheck

  /** The fields of the three frontmatter lines, read in order. */
  lemma {:induction false} FieldsOfThree(a: string, b: string, c: string)
    ensures Fields(map[], [a, b, c]) == AddField(AddField(AddField(map[], a), b), c)
  {
    assert [a, b, c][..2] == [a, b];
    assert [a, b][..1] == [a];
    assert [a][..0] == [];
    assert Fields(map[], [a]) == AddField(map[], a);
    assert Fields(map[], [a, b]) == AddField(Fields(map[], [a]), b);
  }

  /** The title, address and date lines are read as those three fields. */
  lemma FieldsOfFront(csvTitle: string, url: string, isoDate: string)
    requires Trimmed(csvTitle) && Trimmed(url) && Trimmed(isoDate)
    ensures var m := Fields(map[], ["title: " + csvTitle, "url: " + url, "download_date: " + isoDate]);
            && Lookup(m, "title") == Some(csvTitle)
            && Lookup(m, "url") == Some(url)
  {
    FrontFieldsMap(csvTitle, url, isoDate);
    var m := map["title" := csvTitle]["url" := url]["download_date" := isoDate];
    assert "title" != "url" && "title" != "download_date" && "url" != "download_date";
    assert m["title"] == csvTitle && m["url"] == url;
  }

  lemma FrontFieldsMap(csvTitle: string, url: string, isoDate: string)
    requires Trimmed(csvTitle) && Trimmed(url) && Trimmed(isoDate)
    ensures Fields(map[], ["title: " + csvTitle, "url: " + url, "download_date: " + isoDate])
         == map["title" := csvTitle]["url" := url]["download_date" := isoDate]
  {
    var m1 := AddField(map[], "title: " + csvTitle);
    var m2 := AddField(m1, "url: " + url);
    FieldsOfThree("title: " + csvTitle, "url: " + url, "download_date: " + isoDate);
    assert "title" + ": " == "title: " && "url" + ": " == "url: ";
    assert "download_date" + ": " == "download_date: ";
    AddFieldLine(map[], "title", csvTitle);
    AddFieldLine(m1, "url", url);
    AddFieldLine(m2, "download_date", isoDate);
  }

  /** Reading a `key: value` line sets that key. */
  lemma AddFieldLine(m: map<string, string>, key: string, value: string)
    requires key != [] && Trimmed(key) && ':' !in key
    requires Trimmed(value)
    ensures AddField(m, key + ": " + value) == m[key := value]
  {
    FieldLine(key, value);
  }

  /** None of the three field lines strips to `---`, so the header closes at the fifth line. */
  lemma FrontClose(csvTitle: string, url: string, isoDate: string)
    ensures FindClose(FrontLines(csvTitle, url, isoDate), 1) == Some(4)
  {
    var lines := FrontLines(csvTitle, url, isoDate);
    StripFixpoint("---");
    assert FindClose(lines, 4) == Some(4);
    StripFirst(lines[3]);
    assert FindClose(lines, 3) == Some(4);
    StripFirst(lines[2]);
    assert FindClose(lines, 2) == Some(4);
    StripFirst(lines[1]);
  }

  /** The frontmatter lines open with `---` and close at their fifth line. */
  lemma FrontLinesHeader(csvTitle: string, url: string, isoDate: string)
    ensures var lines := FrontLines(csvTitle, url, isoDate);
            HeaderFields(lines) == Some(Fields(map[], [lines[1], lines[2], lines[3]]))
  {
    var lines := FrontLines(csvTitle, url, isoDate);
    StripFixpoint("---");
    FrontClose(csvTitle, url, isoDate);
    assert lines[1..4] == [lines[1], lines[2], lines[3]];
  }

  /** The five frontmatter lines are read as an opening `---`, three fields and a closing `---`. */
  lemma FrontLinesFields(csvTitle: string, url: string, isoDate: string)
    requires Trimmed(csvTitle) && Trimmed(url) && Trimmed(isoDate)
    ensures var m := HeaderFields(FrontLines(csvTitle, url, isoDate));
            && m.Some?
            && Lookup(m.value, "title") == Some(csvTitle)
            && Lookup(m.value, "url") == Some(url)
  {
    FrontLinesHeader(csvTitle, url, isoDate);
    FieldsOfFront(csvTitle, url, isoDate);
  }

  /** A header block of break-free, stripped values is read back whatever text follows it. */
  lemma FrontmatterOfFrontBlock(csvTitle: string, url: string, isoDate: string, rest: string)
    requires Trimmed(csvTitle) && NoLineBreak(csvTitle)
    requires Trimmed(url) && NoLineBreak(url)
    requires Trimmed(isoDate) && NoLineBreak(isoDate)
    ensures Frontmatter(FrontBlock(csvTitle, url, isoDate) + "\n" + rest) == (Some(csvTitle), Some(url))
  {
    var front := FrontLines(csvTitle, url, isoDate);
    assert forall i :: 0 <= i < |front| ==> NoLineBreak(front[i]);
    SplitLinesJoin(front, rest);
    FrontLinesFields(csvTitle, url, isoDate);
    HeaderIgnoresRest(front, SplitLines(rest));
  }

  /** An ISO date has no whitespace at all. */
  lemma IsoPlain(date: Date)
    ensures Trimmed(IsoFormat(date)) && NoLineBreak(IsoFormat(date))
  {
    var iso := IsoFormat(date);
    assert forall i :: 0 <= i < |iso| ==> !IsSpace(iso[i]) && !IsLineBreak(iso[i]);
  }

  /**
   * `parse_frontmatter` of a converted document gives back the title and
   * address the converter was given, when neither holds a line break or
   * surrounding whitespace.
   */
  lemma DocumentFrontmatter(content: Option<Node>, h1: Option<Node>, csvTitle: string, url: string, date: Date)
    requires content.Some?
    requires Trimmed(csvTitle) && NoLineBreak(csvTitle)
    requires Trimmed(url) && NoLineBreak(url)
    ensures Frontmatter(Document(content, h1, csvTitle, url, date).value) == (Some(csvTitle), Some(url))
  {
    var iso := IsoFormat(date);
    var r := Document(content, h1, csvTitle, url, date).value;
    DocumentShape(content, h1, csvTitle, url, date);
    var fb := FrontBlock(csvTitle, url, iso);
    assert r == fb + "\n" + r[|fb| + 1..];
    IsoPlain(date);
    FrontmatterOfFrontBlock(csvTitle, url, iso, r[|fb| + 1..]);
  }
}
