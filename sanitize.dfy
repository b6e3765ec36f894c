/**
 * `sanitize_title`: a title turned into a file name stem: lower-cased, every
 * character that is not a letter or digit turned into a space, the words
 * joined by `_`, and `untitled` when no word is left.
 */
module Sanitize {
  import opened Text

  /** The characters a stem is made of besides `_`. */
  predicate IsStemChar(c: char) {
    ('a' <= c <= 'z') || ('0' <= c <= '9')
  }

  /** `ch if ch.isalnum() else " "`, applied to the lower-cased character. */
  function CleanChar(c: char): (r: char)
    ensures IsStemChar(r) || r == ' '
    ensures IsSpace(r) <==> !IsAlnum(c)
    ensures IsAlnum(c) ==> r == Lower(c)
  {
    var l := Lower(c);
    if IsAlnum(l) then l else ' '
  }

  /** The lowered title with every non-alphanumeric character replaced by a space. */
  function Clean(s: string): (r: string)
    ensures |r| == |s|
    ensures forall i :: 0 <= i < |s| ==> r[i] == CleanChar(s[i])
  {
    seq(|s|, i requires 0 <= i < |s| => CleanChar(s[i]))
  }

  function SanitizeTitle(title: string): (r: string)
    ensures r != []
    ensures SeparatedBy(r, '_', IsStemChar)
  {
    var parts := Words(Clean(title));
    if parts == [] then "untitled"
    else
      WordsStemChars(Clean(title));
      assert forall i, k :: 0 <= i < |parts| && 0 <= k < |parts[i]| ==> IsStemChar(parts[i][k]);
      JoinSeparated('_', parts, IsStemChar);
      Join("_", parts)
  }

  /** Every character is whitespace or a stem character, as in a cleaned title. */
  predicate SpaceOrStem(s: string) {
    forall i :: 0 <= i < |s| ==> IsSpace(s[i]) || IsStemChar(s[i])
  }

  /** Every word is made of stem characters. */
  predicate StemWords(ws: seq<string>) {
    forall i, k :: 0 <= i < |ws| && 0 <= k < |ws[i]| ==> IsStemChar(ws[i][k])
  }

  lemma {:induction false} TrimLeftKeeps(s: string)
    requires SpaceOrStem(s)
    ensures SpaceOrStem(TrimLeft(s))
  {
    if s != [] && IsSpace(s[0]) {
      assert TrimLeft(s) == TrimLeft(s[1..]);
      assert forall i :: 0 <= i < |s[1..]| ==> s[1..][i] == s[i + 1];
      TrimLeftKeeps(s[1..]);
    } else {
      assert TrimLeft(s) == s;
    }
  }

  /** The words of a cleaned title are made of stem characters. */
  lemma {:induction false} WordsStemChars(s: string)
    requires SpaceOrStem(s)
    ensures StemWords(Words(s))
    decreases |s|
  {
    var t := TrimLeft(s);
    TrimLeftKeeps(s);
    if t != [] {
      var w := TakeWord(t);
      var rest := t[|w|..];
      assert forall i :: 0 <= i < |rest| ==> rest[i] == t[|w| + i];
      WordsStemChars(rest);
      var ws := Words(s);
      assert ws == [w] + Words(rest);
      forall i, k | 0 <= i < |ws| && 0 <= k < |ws[i]| ensures IsStemChar(ws[i][k]) {
        if i == 0 {
          assert ws[i][k] == t[k] && !IsSpace(t[k]);
        } else {
          assert ws[i] == Words(rest)[i - 1];
        }
      }
    }
  }

  /** `s.split()` finds no word exactly when `s` is all whitespace. */
  lemma WordsEmpty(s: string)
    ensures Words(s) == [] <==> AllSpace(s)
  {
  }

  /** A title with no letter or digit becomes `untitled`. */
  lemma SanitizeUntitled(title: string)
    requires forall i :: 0 <= i < |title| ==> !IsAlnum(title[i])
    ensures SanitizeTitle(title) == "untitled"
  {
    WordsEmpty(Clean(title));
  }

  lemma {:induction false} CleanAppend(a: string, b: string)
    ensures Clean(a + b) == Clean(a) + Clean(b)
  {
    assert forall i :: 0 <= i < |a + b| ==> (a + b)[i] == if i < |a| then a[i] else b[i - |a|];
  }

  /** A string of stem characters is its own cleaning. */
  lemma CleanStem(s: string)
    requires forall i :: 0 <= i < |s| ==> IsStemChar(s[i])
    ensures Clean(s) == s
  {
  }

  /** Cleaning a stem turns every `_` back into a space. */
  lemma {:induction false} CleanJoin(parts: seq<string>)
    requires StemWords(parts)
    ensures Clean(Join("_", parts)) == Join(" ", parts)
  {
    if |parts| == 1 {
      CleanStem(parts[0]);
    } else if |parts| > 1 {
      CleanJoin(parts[1..]);
      CleanStem(parts[0]);
      CleanAppend(parts[0] + "_", Join("_", parts[1..]));
      CleanAppend(parts[0], "_");
    }
  }

  /**
   * The words of the stem, read back with `_` as the separator, are the
   * words of the cleaned title: nothing but the separators changes.
   */
  lemma SanitizeKeepsWords(title: string)
    requires exists i :: 0 <= i < |title| && IsAlnum(title[i])
    ensures Words(Clean(SanitizeTitle(title))) == Words(Clean(title))
  {
    var parts := Words(Clean(title));
    var i :| 0 <= i < |title| && IsAlnum(title[i]);
    assert !IsSpace(Clean(title)[i]);
    WordsEmpty(Clean(title));
    WordsStemChars(Clean(title));
    CleanJoin(parts);
    WordsOfJoin(parts);
  }

  /** Sanitizing a stem gives it back. */
  lemma SanitizeIdempotent(title: string)
    ensures SanitizeTitle(SanitizeTitle(title)) == SanitizeTitle(title)
  {
    var parts := Words(Clean(title));
    if parts == [] {
      var u := "untitled";
      CleanStem(u);
      assert Join(" ", [u]) == u;
      WordsOfJoin([u]);
    } else {
      WordsStemChars(Clean(title));
      CleanJoin(parts);
      WordsOfJoin(parts);
    }
  }
}
