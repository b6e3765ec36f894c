/**
 * The text helpers of the change detector: the archive name check, the
 * whitespace normaliser that decides whether a page changed, and the
 * reader of the frontmatter header the converter writes.
 */
module ChangeCheck {
  import opened Wrappers
  import opened Text

  // ---------------------------------------------------------------------------
  // Archive names
  // ---------------------------------------------------------------------------

  const ArchiveSuffix: string := ".tar.gz"

  /**
   * The suffix check of `parse_archive_time`: the name without `.tar.gz`,
   * which is what the timestamp parser is handed, or nothing.
   */
  function ArchiveBase(name: string): (r: Option<string>)
    ensures r.None? <==> !EndsWith(name, ArchiveSuffix)
    ensures r.Some? ==> name == r.value + ArchiveSuffix
  {
    if EndsWith(name, ArchiveSuffix) then Some(name[..|name| - 7]) else None
  }

  /** Every base, once the suffix is added, is recognised and given back. */
  lemma ArchiveBaseOfName(base: string)
    ensures ArchiveBase(base + ArchiveSuffix) == Some(base)
  {
    var name := base + ArchiveSuffix;
    assert name[|name| - 7..] == ArchiveSuffix;
    assert name[..|name| - 7] == base;
  }

  // ---------------------------------------------------------------------------
  // Whitespace normalisation
  // ---------------------------------------------------------------------------

  predicate NotSpace(c: char) {
    !IsSpace(c)
  }

  /** `" ".join(text.split())`. */
  function NormalizeContent(text: string): (r: string)
    ensures Words(r) == Words(text)
  {
    WordsOfJoin(Words(text));
    Join(" ", Words(text))
  }

  /**
   * The normal form has no whitespace at either end, no two spaces in a row
   * and no whitespace other than single spaces.
   */
  lemma NormalizeShape(text: string)
    ensures SeparatedBy(NormalizeContent(text), ' ', NotSpace)
  {
    var ws := Words(text);
    assert forall i, k :: 0 <= i < |ws| && 0 <= k < |ws[i]| ==> NotSpace(ws[i][k]);
    JoinSeparated(' ', ws, NotSpace);
  }

  lemma NormalizeIdempotent(text: string)
    ensures NormalizeContent(NormalizeContent(text)) == NormalizeContent(text)
  {
  }

  /** Two texts normalise alike exactly when they have the same words in the same order. */
  lemma NormalizeEqual(a: string, b: string)
    ensures NormalizeContent(a) == NormalizeContent(b) <==> Words(a) == Words(b)
  {
  }

  // ---------------------------------------------------------------------------
  // Frontmatter
  // ---------------------------------------------------------------------------

  /**
   * A header line split at its first colon, key and value stripped; nothing
   * for a blank line or one without a colon.
   */
  function SplitField(line: string): (r: Option<(string, string)>)
    ensures r.None? <==> ':' !in Strip(line)
  {
    var s := Strip(line);
    if s == [] || ':' !in s then None
    else
      var i := IndexOf(s, ':');
      Some((Strip(s[..i]), Strip(s[i + 1..])))
  }

  /** One header line read into the mapping. */
  function AddField(m: map<string, string>, line: string): map<string, string> {
    match SplitField(line)
    case None => m
    case Some((k, v)) => m[k := v]
  }

  /** The mapping after reading `lines` into `m`, one line after the other. */
  function Fields(m: map<string, string>, lines: seq<string>): map<string, string> {
    if lines == [] then m
    else AddField(Fields(m, lines[..|lines| - 1]), lines[|lines| - 1])
  }

  /** `mapping.get(key)`. */
  function Lookup(m: map<string, string>, key: string): (r: Option<string>)
    ensures r.Some? <==> key in m
    ensures r.Some? ==> r.value == m[key]
  {
    if key in m then Some(m[key]) else None
  }

  /** The first line from `i` on that strips to `---`, if any. */
  function FindClose(lines: seq<string>, i: nat): (r: Option<nat>)
    requires i <= |lines|
    ensures r.Some? ==> i <= r.value < |lines| && Strip(lines[r.value]) == "---"
    ensures r.Some? ==> forall j :: i <= j < r.value ==> Strip(lines[j]) != "---"
    ensures r.None? ==> forall j :: i <= j < |lines| ==> Strip(lines[j]) != "---"
    decreases |lines| - i
  {
    if i == |lines| then None
    else if Strip(lines[i]) == "---" then Some(i)
    else FindClose(lines, i + 1)
  }

  /**
   * The header mapping of a document given as lines: nothing when there are
   * no lines, when the first does not strip to `---` or when no later line
   * does; otherwise the fields of the lines strictly between the two.
   */
  function HeaderFields(lines: seq<string>): (r: Option<map<string, string>>)
    ensures r.None? <==> || lines == []
                         || Strip(lines[0]) != "---"
                         || forall j :: 1 <= j < |lines| ==> Strip(lines[j]) != "---"
  {
    if lines == [] || Strip(lines[0]) != "---" then None
    else
      match FindClose(lines, 1)
      case None => None
      case Some(e) => Some(Fields(map[], lines[1..e]))
  }

  /** What `parse_frontmatter` returns: the `title` and `url` values of the header. */
  function Frontmatter(text: string): (Option<string>, Option<string>) {
    match HeaderFields(SplitLines(text))
    case None => (None, None)
    case Some(m) => (Lookup(m, "title"), Lookup(m, "url"))
  }

  lemma {:induction false} FieldsAppend(m: map<string, string>, xs: seq<string>, ys: seq<string>)
    ensures Fields(m, xs + ys) == Fields(Fields(m, xs), ys)
    decreases |ys|
  {
    if ys == [] {
      assert xs + ys == xs;
    } else {
      var init := ys[..|ys| - 1];
      assert (xs + ys)[..|xs + ys| - 1] == xs + init;
      assert (xs + ys)[|xs + ys| - 1] == ys[|ys| - 1];
      FieldsAppend(m, xs, init);
    }
  }

  /** Lines without a colon (blank ones included) are skipped. */
  lemma FieldsSkipsNonField(m: map<string, string>, xs: seq<string>, line: string, ys: seq<string>)
    requires ':' !in Strip(line)
    ensures Fields(m, xs + [line] + ys) == Fields(m, xs + ys)
  {
    FieldsAppend(m, xs + [line], ys);
    FieldsAppend(m, xs, ys);
    FieldsAppend(m, xs, [line]);
    assert [line][..0] == [];
  }

  /** No line of `ys` carries `key`. */
  predicate KeyAbsent(ys: seq<string>, key: string) {
    forall i :: 0 <= i < |ys| ==> SplitField(ys[i]).None? || SplitField(ys[i]).value.0 != key
  }

  lemma {:induction false} FieldsKeepKey(m: map<string, string>, ys: seq<string>, key: string)
    requires key in m && KeyAbsent(ys, key)
    ensures key in Fields(m, ys) && Fields(m, ys)[key] == m[key]
    decreases |ys|
  {
    if ys != [] {
      var init := ys[..|ys| - 1];
      assert KeyAbsent(init, key) by {
        forall i | 0 <= i < |init| ensures SplitField(init[i]).None? || SplitField(init[i]).value.0 != key {
          assert init[i] == ys[i];
        }
      }
      FieldsKeepKey(m, init, key);
    }
  }

  /**
   * The value of a key is the one on its last line: a later line with the
   * same key overrides an earlier one, and lines with other keys leave it.
   */
  lemma FieldsLastWins(m: map<string, string>, xs: seq<string>, line: string, ys: seq<string>, key: string, value: string)
    requires SplitField(line) == Some((key, value))
    requires KeyAbsent(ys, key)
    ensures var f := Fields(m, xs + [line] + ys); key in f && f[key] == value
  {
    FieldsAppend(m, xs + [line], ys);
    FieldsAppend(m, xs, [line]);
    assert [line][..0] == [];
    FieldsKeepKey(Fields(m, xs + [line]), ys, key);
  }

  /** A string that starts with a non-space character keeps that character first when stripped. */
  lemma StripFirst(s: string)
    requires s != [] && !IsSpace(s[0])
    ensures Strip(s) != [] && Strip(s)[0] == s[0]
  {
    TrimLeftFixpoint(s);
    var r := TrimRight(s);
    assert !AllSpace(s);
  }

  /**
   * A line `key: value` with a colon-free key is read as that key and value;
   * the value may itself hold colons, since only the first colon splits.
   */
  lemma FieldLine(key: string, value: string)
    requires key != [] && Trimmed(key) && ':' !in key
    requires Trimmed(value)
    ensures SplitField(key + ": " + value) == Some((key, value))
  {
    var line := key + ": " + value;
    var s := Strip(line);
    if value == [] {
      assert line == key + ": ";
      DropTrailingSpace(line);
      assert line[..|line| - 1] == key + ":";
      StripFixpoint(key + ":");
    } else {
      StripFixpoint(line);
    }
    assert s[..|key| + 1] == key + ":";
    assert s[|key|] == ':';
    var i := IndexOf(s, ':');
    assert i == |key|;
    assert s[..i] == key;
    StripFixpoint(key);
    if value == [] {
      assert s[i + 1..] == [];
    } else {
      assert s[i + 1..] == " " + value;
      TrimLeftConcat(" ", value);
      TrimLeftFixpoint(value);
      TrimRightFixpoint(value);
    }
  }

  lemma {:induction false} FindCloseExtend(lines: seq<string>, more: seq<string>, i: nat)
    requires i <= |lines| && FindClose(lines, i).Some?
    ensures FindClose(lines + more, i) == FindClose(lines, i)
    decreases |lines| - i
  {
    assert (lines + more)[i] == lines[i];
    if Strip(lines[i]) != "---" {
      FindCloseExtend(lines, more, i + 1);
    }
  }

  /** Once the header is closed, nothing after it affects what is read. */
  lemma HeaderIgnoresRest(lines: seq<string>, more: seq<string>)
    requires HeaderFields(lines).Some?
    ensures HeaderFields(lines + more) == HeaderFields(lines)
  {
    assert (lines + more)[0] == lines[0];
    FindCloseExtend(lines, more, 1);
    var e := FindClose(lines, 1).value;
    assert (lines + more)[1..e] == lines[1..e];
  }

  // ---------------------------------------------------------------------------
  // The reader
  // ---------------------------------------------------------------------------

  /** Reading one more line of the header. */
  lemma FieldsStep(header: seq<string>, j: nat)
    requires j < |header|
    ensures Fields(map[], header[..j + 1]) == AddField(Fields(map[], header[..j]), header[j])
  {
    assert header[..j + 1][..j] == header[..j];
  }

  /** The loop of `parse_frontmatter` that reads the header lines into a mapping. */
  method ReadFields(header: seq<string>) returns (mapping: map<string, string>)
    ensures mapping == Fields(map[], header)
  {
    mapping := map[];
    var j := 0;
    while j < |header|
      invariant 0 <= j <= |header|
      invariant mapping == Fields(map[], header[..j])
    {
      match SplitField(header[j]) {
        case Some((key, value)) => mapping := mapping[key := value];
        case None =>
      }
      FieldsStep(header, j);
      j := j + 1;
    }
    assert header[..|header|] == header;
  }

  /** `parse_frontmatter`. */
  method ParseFrontmatter(text: string) returns (title: Option<string>, url: Option<string>)
    ensures (title, url) == Frontmatter(text)
  {
    var lines := SplitLines(text);
    if |lines| == 0 || Strip(lines[0]) != "---" {
      return None, None;
    }

    var endIndex: Option<nat> := None;
    var i := 1;
    while i < |lines|
      invariant 1 <= i <= |lines|
      invariant FindClose(lines, i) == FindClose(lines, 1)
    {
      if Strip(lines[i]) == "---" {
        endIndex := Some(i);
        break;
      }
      i := i + 1;
    }
    assert endIndex == FindClose(lines, 1);
    if endIndex.None? {
      return None, None;
    }

    var e := endIndex.value;
    var mapping := ReadFields(lines[1..e]);
    assert HeaderFields(lines) == Some(mapping);
    title := if "title" in mapping then Some(mapping["title"]) else None;
    url := if "url" in mapping then Some(mapping["url"]) else None;
  }
}
