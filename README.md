# wikisnap core, modelled in Dafny

wikisnap downloads Wikipedia articles and stores each one as a Markdown
file. Each file carries a small YAML frontmatter header. Its companion,
diffcheck, compares two archived snapshots and reports the pages whose
content changed. This project models the parts of both scripts that turn
data into data, and proves what they promise.

- `tree.dfy` (`Tree`): the parsed page as a value. A node is a run of text
  or a tag with its class tokens, its other attributes and its children.
  It also holds the two `get_text` forms the converter uses.
- `inline.dfy` (`InlineRenderer`): `convert_inline`, the recursive renderer
  for emphasis, code spans, links, citation markers and edit links.
- `blocks.dfy` (`Blocks`): `convert_heading`, `convert_paragraph`,
  `convert_blockquote` and `convert_code_block`.
- `lists.dfy` (`Lists`): `convert_list`.
  - `ListLines` is a specification over an `Outline` value.
  - `ConvertList` is a method that builds the output list in a loop with a
    running item counter and is proved equal to `ListLines`.
- `convert.dfy` (`Converter`): `html_to_markdown` from the located article
  body on.
  - `SKIP_SECTIONS`, `SKIP_CLASSES` and the non-content rules.
  - The section filter with its `ignore_section` flag, given as the
    specification `Kept`/`Body`.
  - The frontmatter header and the final `"\n".join(lines).rstrip() + "\n"`.
  - `HtmlToMarkdown`, a method whose loop updates the flag and extends the
    line list.
- `sanitize.dfy` (`Sanitize`): `sanitize_title`.
- `diffcheck.dfy` (`ChangeCheck`):
  - The `.tar.gz` suffix check of `parse_archive_time`.
  - `normalize_content`.
  - `parse_frontmatter`: specified by `Frontmatter`/`HeaderFields`, and
    implemented by the method `ParseFrontmatter` with its two loops.
- `roundtrip.dfy` (`RoundTrip`): the frontmatter wikisnap writes is read
  back by diffcheck as the title and URL it was given.
- `text.dfy` (`Wrappers`, `Text`): the Python string operations the
  scripts use, written out:
  - `strip` (a left trim, then `rstrip`), `rstrip` and `rstrip(c)`;
  - `split()`, `splitlines()` and `join`;
  - `isspace` and decimal formatting.

## Model

| member | source | states |
|---|---|---|
| Sanitize.CleanChar | bin/wikisnap.py:52-53 | An alphanumeric character becomes its lower-case form and any other character becomes a space; the result is a lower-case letter, a digit or a space |
| Sanitize.Clean | bin/wikisnap.py:52-53 | The cleaned title has the title's length and holds the cleaned character at every position |
| Sanitize.SanitizeTitle | bin/wikisnap.py:50-55 | The stem is never empty. It is non-empty runs of lower-case letters and digits joined by single `_`, with no `_` at either end and none doubled |
| Sanitize.SanitizeUntitled | bin/wikisnap.py:54-55 | A title with no letter or digit gives `untitled` |
| Sanitize.SanitizeKeepsWords | bin/wikisnap.py:50-55 | For a title with a letter or digit, reading the stem back with `_` as the separator gives exactly the words of the cleaned title, in order |
| Sanitize.SanitizeIdempotent | bin/wikisnap.py:50-55 | Sanitizing a stem gives the same stem back |
| Sanitize.WordsStemChars | bin/wikisnap.py:53-54 | The words that `split()` finds in a cleaned title are made of letters and digits only |
| InlineRenderer.LinkTarget | bin/wikisnap.py:120-122 | A link target exists exactly when the element has a non-empty `href`, and it is that `href` |
| InlineRenderer.InlineRules | bin/wikisnap.py:106-124 | Rules of the renderer on every element: <br>• a `reference` superscript and an `mw-editsection` or `mw-editsection-visualeditor` span render as `""`, whatever their children <br>• `b`/`strong` renders as `**inner**` and `i`/`em` as `*inner*` <br>• `code` renders as backticks around inner, except under `pre`, where it is bare <br>• `a` renders as `[inner](href)` with a non-empty href and as bare inner without one <br>• any other tag renders as its inner text, including a `sup` or `span` that is not dropped |
| InlineRenderer.InlineSeqAppend | bin/wikisnap.py:112 | Rendering a run of siblings distributes over concatenation |
| InlineRenderer.InlinePlain | bin/wikisnap.py:96-124 | A tree without emphasis, code or targeted links renders as exactly its visible text (text runs outside dropped elements) |
| InlineRenderer.InlineSeqPlain | bin/wikisnap.py:112 | The same, for a run of siblings |
| InlineRenderer.InlineKeepsText | bin/wikisnap.py:96-124 | The visible text is a subsequence of the rendering, so markup is only ever added around it, and the rendering is never shorter |
| InlineRenderer.InlineSeqKeepsText | bin/wikisnap.py:112 | The same, for a run of siblings: their visible text, in order, is a subsequence of their joined renderings |
| Blocks.HeadingLevel | bin/wikisnap.py:132 | The level is the tag's digit clamped to 1..6 |
| Blocks.ParseAtxHeading | bin/wikisnap.py:133 | A heading line that parses is 1 to 6 `#`, one space, then the text |
| Blocks.ConvertHeading | bin/wikisnap.py:127-133 | No lines exactly when the stripped inline text is empty. Otherwise exactly two lines: a heading line that reads back as the clamped level and the text, then `""` |
| Blocks.ConvertParagraph | bin/wikisnap.py:136-139 | No lines exactly when the inline text is blank. Otherwise the stripped, non-empty text, then `""` |
| Blocks.ReferenceInParagraph | bin/wikisnap.py:106-108 | A citation marker anywhere in a paragraph does not change the paragraph's lines |
| Blocks.EmptyParagraphElided | bin/wikisnap.py:138-139 | A paragraph of whitespace and citation markers only gives no lines |
| Blocks.BlankInlineSeq | bin/wikisnap.py:138 | Whitespace runs and dropped elements render as whitespace only |
| Blocks.Quote | bin/wikisnap.py:179 | Each line is prefixed with `> `, one output line per input line |
| Blocks.ConvertBlockquote | bin/wikisnap.py:174-181 | No lines exactly when the stripped text is empty. Otherwise, in order: one line per non-blank line of the text, each `> ` followed by the stripped, non-empty line; then `""` |
| Blocks.ConvertCodeBlock | bin/wikisnap.py:184-187 | Exactly four lines: `` ``` ``, the content, `` ``` `` and `""`. The content is the raw text minus its trailing `\n` characters only, and does not end in `\n` |
| Lists.DirectItemsExact | bin/wikisnap.py:147 | The items of a list are exactly its `li` children: a subsequence of the children, in order, holding each `li` child as many times as it occurs and no other node |
| Lists.SubListsExact | bin/wikisnap.py:151-153 | The nested lists of an item are exactly its `ul`/`ol` children: a subsequence of the children, in order, holding each `ul`/`ol` child as many times as it occurs and no other node |
| Lists.InlineChildrenExact | bin/wikisnap.py:151-155 | The inline part of an item is exactly its children that are not `ul`/`ol`: a subsequence of the children, in order, holding each such child as many times as it occurs and no `ul`/`ol` |
| Lists.Marker | bin/wikisnap.py:158 | An unordered item's marker is `-`; an ordered item's marker is decimal digits denoting its position, then `.` |
| Lists.Indent | bin/wikisnap.py:161 | The indentation is two spaces per level |
| Lists.NextIndent | bin/wikisnap.py:164 | A nested list goes one level deeper below level 2, and stays at level 2 from there on |
| Lists.Outlined | bin/wikisnap.py:142-171 | The outline of a list keeps the list's numbering flag and has one entry per `li` child |
| Lists.SubOutlines | bin/wikisnap.py:163-165 | An item has one nested outline per nested list |
| Lists.OutlineLines | bin/wikisnap.py:169-171 | The lines of a list are empty or end with `""` |
| Lists.OutlinedFollowsTree | bin/wikisnap.py:147-165 | For the k-th `li` child: its entry holds the item's stripped inline text and one outline per nested list, each numbered exactly when that list is an `ol` |
| Lists.ItemLineShape | bin/wikisnap.py:158-161 | An item line is indented for its level and followed by a marker |
| Lists.NestedLineFits | bin/wikisnap.py:164-165 | The lines of a nested list satisfy the indentation bound of the enclosing list |
| Lists.EntriesLinesPrefix | bin/wikisnap.py:147-167 | The lines of the first k items are a prefix of those of the first m |
| Lists.UnorderedItemLine | bin/wikisnap.py:158-161 | In a bulleted list an item line is the indentation, `- ` and the text |
| Lists.OrderedItemLine | bin/wikisnap.py:158-161 | In a numbered list an item line is the indentation, the number, `. ` and the text |
| Lists.OrderedMarker | bin/wikisnap.py:145-167 | In a numbered list, the k-th item, when its text is non-empty, is numbered `k+1`: items with empty text still count. Its line comes right after the lines of the items before it |
| Lists.OutlineLinesShape | bin/wikisnap.py:160-165 | Every line of a list at level `indent` is `""` or an item line indented by an even number of spaces for a level between `indent` and 2, at any nesting depth |
| Lists.EntriesLinesShape | bin/wikisnap.py:147-167 | The same, for the lines of the first k items |
| Lists.EntryLinesShape | bin/wikisnap.py:160-165 | The same, for one item and its nested lists |
| Lists.SubsLinesShape | bin/wikisnap.py:163-165 | The same, for an item's nested lists |
| Lists.TopLevelIndentation | bin/wikisnap.py:161-165 | Every non-blank line of a top-level list starts with 0, 2 or 4 spaces |
| Lists.PartitionChildren | bin/wikisnap.py:148-155 | The loop puts exactly the `ul`/`ol` children, in order, into the nested lists and every other child, in order, into the inline children |
| Lists.ItemBelow | bin/wikisnap.py:147 | An `li` of a list is a proper subtree of it, so the recursion ends |
| Lists.SubListBelow | bin/wikisnap.py:163 | A nested list of an item is a proper subtree of it |
| Lists.ConvertList | bin/wikisnap.py:142-171 | The lines built by the loop, with its running `index` counter, are the lines of the list's outline |
| Lists.ConvertItem | bin/wikisnap.py:148-167 | One pass of the item loop yields that item's line, when its text is non-empty, followed by its nested lists' lines |
| Lists.ConvertSubLists | bin/wikisnap.py:163-165 | The inner loop appends each nested list's lines, one level deeper, in order |
| Lists.SubsLinesStep | bin/wikisnap.py:165 | Converting one more nested list extends the lines by exactly that list's lines |
| Converter.BlockLines | bin/wikisnap.py:256-265 | Text runs and any tag other than `h2`–`h6`, `p`, `ul`, `ol`, `pre` and `blockquote` contribute no lines |
| Converter.ConvertBlock | bin/wikisnap.py:256-265 | The dispatch on the tag name picks the renderer for the tag: `ul` unnumbered, `ol` numbered, both at level 0 |
| Converter.NextFlag | bin/wikisnap.py:245-250 | An `h2` that is not non-content sets the flag exactly when its text is a skip section. Every other sibling leaves the flag unchanged |
| Converter.KeptWithinContent | bin/wikisnap.py:230-253 | The walk only leaves siblings out: what it renders is a subsequence of the content siblings, in their order |
| Converter.ContentOfExact | bin/wikisnap.py:231-242 | The content filter keeps exactly the siblings that are not non-content elements: a subsequence, in order, holding each such sibling as many times as it occurs and no non-content element |
| Converter.KeptAppend | bin/wikisnap.py:230 | Filtering is compositional: the walk over `xs + ys` is the walk over `xs` followed by the walk over `ys` from the flag it reached |
| Converter.KeptOne | bin/wikisnap.py:231-253 | One sibling is rendered exactly when it is not skipped. The flag after it is the next flag |
| Converter.NonContentInvisible | bin/wikisnap.py:231-242 | A text run, a `table`/`figure`/`img`/`style`/`script` tag, the `toc` div or a skip-classed element can be removed without changing what is rendered or the flag |
| Converter.SuppressedWithoutHeading | bin/wikisnap.py:252-253 | With the flag set and no section heading following, nothing is rendered and the flag stays set |
| Converter.SkipHeadingSuppresses | bin/wikisnap.py:245-253 | A skip heading is not rendered, and neither is anything after it up to the next section heading |
| Converter.HeadingClearsFlag | bin/wikisnap.py:245-250 | From an ordinary section heading on, rendering does not depend on the flag |
| Converter.SkippedSection | bin/wikisnap.py:244-253 | A skipped section disappears whole: what follows the next ordinary heading is rendered as if the section were not there |
| Converter.HeadingResets | bin/wikisnap.py:245-250 | An ordinary section heading clears the flag and is itself rendered |
| Converter.NoSkipKeepsOrder | bin/wikisnap.py:230-265 | Without skip headings, every content sibling is rendered, in sibling order |
| Converter.IsoFormatLayout | bin/wikisnap.py:221 | For any date with a year below 10000, the ISO date is ten characters: four digits denoting the year, `-`, two denoting the month, `-`, two denoting the day |
| Converter.FrontLines | bin/wikisnap.py:218-222 | The frontmatter is five lines, opened and closed by `---` |
| Converter.Header | bin/wikisnap.py:217-226 | The header is eight lines in the stated order: `---`, `title:`, `url:`, `download_date:`, `---`, `""`, `# title`, `""` |
| Converter.Finish | bin/wikisnap.py:267 | The result is non-empty and ends with `\n` |
| Converter.Document | bin/wikisnap.py:208-211 | No document exactly when the article body is missing |
| Converter.FrontBlock | bin/wikisnap.py:218-222 | The joined frontmatter ends with `---` |
| Converter.TrimRightKeepsHead | bin/wikisnap.py:267 | The final right-strip keeps a head that ends in a non-space |
| Converter.HeaderText | bin/wikisnap.py:217-267 | The joined document begins with the joined frontmatter and a line break |
| Converter.FinishShape | bin/wikisnap.py:217-267 | The output starts with the frontmatter block and a line break, and ends in exactly one `\n` with no whitespace before it |
| Converter.TitleLine | bin/wikisnap.py:217-267 | When the article title ends in a non-space, the output starts with the frontmatter block, a blank line and the `# title` line |
| Converter.DocumentShape | bin/wikisnap.py:208-267 | For the document of any article body: the frontmatter block at the start, followed by the blank line and the `# title` line whenever the title ends in a non-space, and a single final `\n` |
| Converter.KeptSnoc | bin/wikisnap.py:230-253 | Walking one more sibling appends it when it renders, and advances the flag |
| Converter.RenderedSnoc | bin/wikisnap.py:256-265 | Rendering one more kept sibling appends its block lines |
| Converter.VisitChild | bin/wikisnap.py:231-265 | One pass of the loop gives the next flag, and the sibling's block exactly when the sibling renders |
| Converter.BodyStep | bin/wikisnap.py:230-265 | The body of the first `i+1` siblings extends that of the first `i` by the block of sibling `i` when it renders |
| Converter.HtmlToMarkdown | bin/wikisnap.py:197-267 | The method, with its flag and growing line list, returns the specified document, and nothing without an article body |
| ChangeCheck.ArchiveBase | bin/diffcheck.py:42-45 | No base exactly when the name does not end in `.tar.gz`. Otherwise the base plus `.tar.gz` is the name |
| ChangeCheck.ArchiveBaseOfName | bin/diffcheck.py:43-45 | Every base with the suffix added is recognised, and the base is given back |
| ChangeCheck.NormalizeContent | bin/diffcheck.py:52-54 | The normal form has the same words as the text |
| ChangeCheck.NormalizeShape | bin/diffcheck.py:52-54 | The normal form has no whitespace at either end, no doubled space and no whitespace other than single spaces |
| ChangeCheck.NormalizeIdempotent | bin/diffcheck.py:52-54 | Normalizing twice is normalizing once |
| ChangeCheck.NormalizeEqual | bin/diffcheck.py:52-54 | Two texts normalise equal exactly when they have the same words in the same order |
| ChangeCheck.SplitField | bin/diffcheck.py:73-77 | A line is skipped exactly when its stripped form has no colon (blank lines included) |
| ChangeCheck.Lookup | bin/diffcheck.py:79 | `get` finds a value exactly when the key is present, and it is the key's value |
| ChangeCheck.FindClose | bin/diffcheck.py:63-67 | The closing index is the first line from `i` on that strips to `---`. When there is none, no such line exists |
| ChangeCheck.HeaderFields | bin/diffcheck.py:59-69 | No header exactly when there are no lines, when the first line does not strip to `---`, or when no later line does |
| ChangeCheck.FieldsAppend | bin/diffcheck.py:72-77 | Reading `xs + ys` is reading `xs`, then `ys` |
| ChangeCheck.FieldsSkipsNonField | bin/diffcheck.py:74-75 | A line without a colon changes nothing |
| ChangeCheck.FieldsKeepKey | bin/diffcheck.py:76-77 | Lines with other keys leave a key's value alone |
| ChangeCheck.FieldsLastWins | bin/diffcheck.py:76-77 | A key's value is the one on its last line, so a later duplicate overrides an earlier one |
| ChangeCheck.StripFirst | bin/diffcheck.py:73 | Stripping a string that starts with a non-space keeps its first character |
| ChangeCheck.FieldLine | bin/diffcheck.py:76-77 | `key: value` is read as that key and value. Only the first colon splits, so the value may hold colons |
| ChangeCheck.FindCloseExtend | bin/diffcheck.py:64-67 | Text after the closing line does not move it |
| ChangeCheck.HeaderIgnoresRest | bin/diffcheck.py:71-72 | Only lines strictly between the opening and first closing `---` are read. Anything after the closing line does not affect the result |
| ChangeCheck.FieldsStep | bin/diffcheck.py:72-77 | Reading one more header line applies that line to the mapping |
| ChangeCheck.ReadFields | bin/diffcheck.py:71-77 | The loop fills the mapping with exactly the fields of the header lines, read in order |
| ChangeCheck.ParseFrontmatter | bin/diffcheck.py:57-79 | The method, with its search loop that breaks and its mapping loop, returns the title and url of the header, or `(None, None)` in the three failure cases |
| RoundTrip.FieldsOfThree | bin/diffcheck.py:71-77 | Three header lines are read in order |
| RoundTrip.AddFieldLine | bin/wikisnap.py:219-221 | A written `key: value` line is read back as that key and value |
| RoundTrip.FieldsOfFront | bin/wikisnap.py:219-221 | The title, url and date lines are read as those three fields |
| RoundTrip.FrontFieldsMap | bin/wikisnap.py:219-221 | Those three lines are read as exactly the map of the three fields |
| RoundTrip.FrontClose | bin/diffcheck.py:64-67 | The header wikisnap writes closes at its fifth line |
| RoundTrip.FrontLinesHeader | bin/diffcheck.py:59-72 | The header wikisnap writes is read as the fields of its three middle lines |
| RoundTrip.FrontLinesFields | bin/wikisnap.py:218-222 | Those fields give back the title and the url |
| RoundTrip.FrontmatterOfFrontBlock | bin/diffcheck.py:57-79 | The frontmatter block followed by any text is parsed as its title and url |
| RoundTrip.IsoPlain | bin/wikisnap.py:221 | The date value has no whitespace and no line break |
| RoundTrip.DocumentFrontmatter | bin/diffcheck.py:57-79 | Round trip: when the title and url have no line break and no surrounding whitespace, `parse_frontmatter` of `html_to_markdown`'s output returns exactly them |
| Tree.Attr | bin/wikisnap.py:121 | `get` finds an attribute exactly when the tag has it, and it is the attribute's value |
| Tree.NonBlankStrippedSnoc | bin/wikisnap.py:179 | Every line adds exactly its strip when that is non-empty, and nothing otherwise, in order |
| Text.Lower | bin/wikisnap.py:52 | Lower-casing keeps alphanumerics alphanumeric, and a lowered alphanumeric is a lower-case letter or a digit |
| Text.TrimLeft | bin/wikisnap.py:129 | The leading half of `strip` removes only leading whitespace, leaves a non-space first character, and is empty exactly for blank text |
| Text.TrimRight | bin/wikisnap.py:267 | `rstrip` is a prefix, removes only whitespace, and leaves a non-space last character |
| Text.Strip | bin/wikisnap.py:129 | `strip` leaves no whitespace at either end, and is empty exactly for blank text |
| Text.TrimLeftSuffix | bin/wikisnap.py:129 | The leading half of `strip` gives a suffix of the text, so it only removes characters from the front |
| Text.StripInfix | bin/wikisnap.py:129 | `strip` gives a contiguous slice of the text, and everything cut from either end is whitespace |
| Text.RStripChar | bin/wikisnap.py:186 | `rstrip("\n")` is a prefix, removes only `\n` characters, and leaves no final `\n` |
| Text.StripIdempotent | bin/diffcheck.py:73 | Stripping twice is stripping once |
| Text.Words | bin/diffcheck.py:54 | `split()` gives non-empty words without whitespace |
| Text.WordsOfJoin | bin/diffcheck.py:54 | Splitting words joined by one space gives back the words |
| Text.JoinSeparated | bin/wikisnap.py:55 | Non-empty parts joined by a separator they do not contain give single separators between runs, none at either end |
| Text.SplitLines | bin/diffcheck.py:59 | `splitlines()` gives lines without line breaks |
| Text.SplitLinesJoin | bin/diffcheck.py:59 | Break-free lines joined and followed by a line break come back first from `splitlines` |
| Text.SplitLinesFirstNonBlank | bin/wikisnap.py:176-179 | Text that starts with a non-space has a non-blank first line, so a non-empty quote has a line |
| Text.NatToStringValue | bin/wikisnap.py:158 | The item number is written as decimal digits that denote the number, checked against an independent reading of digit strings |
| Text.NatToString | bin/wikisnap.py:158 | The digits have no leading zero, except for zero itself |
| Text.ZeroPad | bin/wikisnap.py:221 | Zero padding gives the number's digits preceded by zeros only, as long as the width or the digits, whichever is longer |
| Text.ZeroPadValue | bin/wikisnap.py:221 | The padded digits still denote the number |
| Text.IndexOf | bin/diffcheck.py:76 | The colon found is the first one |

## Left out

- Fetching the page (`fetch_content`), the HTTP client and local file reads are I/O.
- Parsing the HTML is left to BeautifulSoup. The model starts from the parsed tree. It takes the two results of `soup.find` as optional inputs: the `mw-parser-output` body and the first `h1`. The parse-failure branch is not modelled, because parsing is not.
- `get_text` is modelled as a join of the text runs in document order. `get_text(sep, strip=True)` joins the stripped, non-blank runs. BeautifulSoup's handling of comments, CDATA and other string subclasses is not modelled.
- `Text.IsAlnum` and `Text.Lower` are ASCII: non-ASCII letters and digits count as separators in `sanitize_title`, and Unicode case mapping is not modelled. Whitespace and line breaks follow Python's full `str.isspace` and `str.splitlines` sets.
- `url_hash` (MD5), `parse_csv`, both `main` functions, archiving and extraction with `tarfile`, `tempfile`, directory listing, the clock, logging, `VERBOSE` and exit codes are I/O or environment glue.
- `ChangeCheck.ArchiveBase`: only the `.tar.gz` suffix check of `parse_archive_time`. Its result is the base string that `datetime.strptime` would parse. The calendar validation and the datetime value are library date parsing.
- `Converter.HtmlToMarkdown`: the date is a year/month/day value formatted as `date.isoformat()` does.
- `Converter.IsoFormatLayout`: requires a year below 10000 and a month and day below 100, which every Python `date` satisfies; the calendar range checks of the `date` type itself are not modelled.
- Some loop bodies of the source are split out as methods of their own: `ConvertItem`, `ConvertSubLists` and `PartitionChildren` in `convert_list`, `VisitChild` in `html_to_markdown`, and `ReadFields` in `parse_frontmatter`. `ReadFields` reads each line through `SplitField`, which does the line's strip, colon test and first-colon split.
- Lists, strings and dictionaries are values: the in-place `append`/`extend` and dictionary updates are reassignments of local sequence and map variables, and no aliasing arises in the source.
- `RoundTrip.DocumentFrontmatter` requires the title and url to be stripped and free of line breaks. Other values are not read back as given, because `parse_frontmatter` strips them and splits lines at the breaks.
