/** Option type shared by the converter and the change detector. */
module Wrappers {
  datatype Option<+T> = None | Some(value: T)
}

/**
 * The string primitives the two scripts use: Python's `str.isspace`,
 * `str.strip`, `str.rstrip`, `str.split()`, `str.splitlines()` and
 * `sep.join(parts)`, written out over `seq<char>`.
 */
module Text {

  /** Python's `str.isspace`: the characters `split()` and `strip()` treat as whitespace. */
  predicate IsSpace(c: char) {
    || ('\t' <= c <= '\r')
    || ('\U{1C}' <= c <= ' ')
    || c == '\U{85}' || c == '\U{A0}' || c == '\U{1680}'
    || ('\U{2000}' <= c <= '\U{200A}')
    || c == '\U{2028}' || c == '\U{2029}' || c == '\U{202F}' || c == '\U{205F}' || c == '\U{3000}'
  }

  /** The line boundaries of Python's `str.splitlines` (`\r\n` is handled as a pair). */
  predicate IsLineBreak(c: char) {
    || ('\n' <= c <= '\r')
    || ('\U{1C}' <= c <= '\U{1E}')
    || c == '\U{85}' || c == '\U{2028}' || c == '\U{2029}'
  }

  /** ASCII approximation of `str.isalnum`. */
  predicate IsAlnum(c: char) {
    ('a' <= c <= 'z') || ('A' <= c <= 'Z') || ('0' <= c <= '9')
  }

  /** ASCII approximation of `str.lower` on one character. */
  function Lower(c: char): (r: char)
    ensures IsAlnum(c) <==> IsAlnum(r)
    ensures IsAlnum(r) ==> ('a' <= r <= 'z') || ('0' <= r <= '9')
  {
    if 'A' <= c <= 'Z' then (c as int + 32) as char else c
  }

  /** No whitespace at either end: what `strip()` leaves. */
  predicate Trimmed(s: string) {
    s == [] || (!IsSpace(s[0]) && !IsSpace(s[|s| - 1]))
  }

  predicate AllSpace(s: string) {
    forall i :: 0 <= i < |s| ==> IsSpace(s[i])
  }

  predicate NoSpace(s: string) {
    forall i :: 0 <= i < |s| ==> !IsSpace(s[i])
  }

  predicate NoLineBreak(s: string) {
    forall i :: 0 <= i < |s| ==> !IsLineBreak(s[i])
  }

  predicate AllChar(s: string, c: char) {
    forall i :: 0 <= i < |s| ==> s[i] == c
  }

  lemma LineBreakIsSpace(c: char)
    ensures IsLineBreak(c) ==> IsSpace(c)
  {
  }

  // ---------------------------------------------------------------------------
  // strip and rstrip
  // ---------------------------------------------------------------------------

  /** The leading half of `strip`: the suffix of `s` left after its leading whitespace. */
  function TrimLeft(s: string): (r: string)
    ensures |r| <= |s|
    ensures AllSpace(s[..|s| - |r|])
    ensures r == [] || !IsSpace(r[0])
    ensures r == [] <==> AllSpace(s)
  {
    if s != [] && IsSpace(s[0]) then TrimLeft(s[1..]) else s
  }

  /** `s.rstrip()`: the prefix of `s` left after its trailing whitespace. */
  function TrimRight(s: string): (r: string)
    ensures |r| <= |s| && r == s[..|r|]
    ensures AllSpace(s[|r|..])
    ensures r == [] || !IsSpace(r[|r| - 1])
  {
    if s != [] && IsSpace(s[|s| - 1]) then
      var t := s[..|s| - 1];
      var r := TrimRight(t);
      assert s[..|r|] == t[..|r|];
      assert s[|r|..] == t[|r|..] + [s[|s| - 1]];
      r
    else s
  }

  /** `s.strip()`. */
  function Strip(s: string): (r: string)
    ensures Trimmed(r)
    ensures r == [] <==> AllSpace(s)
  {
    var l := TrimLeft(s);
    assert l == [] ==> s[..|s|] == s;
    TrimRight(l)
  }

  /** `s.rstrip(c)` for a single character `c`. */
  function RStripChar(s: string, c: char): (r: string)
    ensures |r| <= |s| && r == s[..|r|]
    ensures AllChar(s[|r|..], c)
    ensures r == [] || r[|r| - 1] != c
  {
    if s != [] && s[|s| - 1] == c then
      var t := s[..|s| - 1];
      var r := RStripChar(t, c);
      assert s[..|r|] == t[..|r|];
      assert s[|r|..] == t[|r|..] + [c];
      r
    else s
  }

  lemma {:induction false} TrimLeftFixpoint(s: string)
    requires s == [] || !IsSpace(s[0])
    ensures TrimLeft(s) == s
  {
  }

  lemma {:induction false} TrimRightFixpoint(s: string)
    requires s == [] || !IsSpace(s[|s| - 1])
    ensures TrimRight(s) == s
  {
  }

  /** A string with no whitespace at either end is its own `strip()`; hence `strip` is idempotent. */
  lemma StripFixpoint(s: string)
    requires Trimmed(s)
    ensures Strip(s) == s
  {
    TrimLeftFixpoint(s);
    TrimRightFixpoint(s);
  }

  lemma StripIdempotent(s: string)
    ensures Strip(Strip(s)) == Strip(s)
  {
    StripFixpoint(Strip(s));
  }

  /** The leading trim leaves a suffix of `s`: only the leading whitespace is removed. */
  lemma {:induction false} TrimLeftSuffix(s: string)
    ensures TrimLeft(s) == s[|s| - |TrimLeft(s)|..]
  {
    if s != [] && IsSpace(s[0]) {
      TrimLeftSuffix(s[1..]);
      assert s[1..][|s[1..]| - |TrimLeft(s)|..] == s[|s| - |TrimLeft(s)|..];
    }
  }

  /**
   * `strip` leaves a contiguous piece of `s`, and everything before and
   * after that piece is whitespace.
   */
  lemma StripInfix(s: string)
    ensures var r := Strip(s); var k := |s| - |TrimLeft(s)|;
            && k + |r| <= |s| && r == s[k..k + |r|]
            && AllSpace(s[..k]) && AllSpace(s[k + |r|..])
  {
    var l := TrimLeft(s);
    var r := TrimRight(l);
    var k := |s| - |l|;
    assert l == s[k..] by { TrimLeftSuffix(s); }
    assert r == s[k..k + |r|] by { assert r == l[..|r|]; }
    assert AllSpace(s[k + |r|..]) by {
      assert AllSpace(l[|r|..]);
      assert l[|r|..] == s[k + |r|..];
    }
  }

  /** Leading whitespace followed by a non-blank part: the leading trim removes exactly the whitespace. */
  lemma {:induction false} TrimLeftConcat(a: string, b: string)
    ensures AllSpace(a) ==> TrimLeft(a + b) == TrimLeft(b)
    ensures !AllSpace(a) ==> TrimLeft(a + b) == TrimLeft(a) + b
  {
    if a != [] {
      assert (a + b)[1..] == a[1..] + b;
      TrimLeftConcat(a[1..], b);
      if !IsSpace(a[0]) {
        assert !AllSpace(a);
      }
    } else {
      assert a + b == b;
    }
  }

  lemma {:induction false} TrimRightConcat(a: string, b: string)
    ensures AllSpace(b) ==> TrimRight(a + b) == TrimRight(a)
    ensures !AllSpace(b) ==> TrimRight(a + b) == a + TrimRight(b)
  {
    if b != [] {
      assert (a + b)[..|a + b| - 1] == a + b[..|b| - 1];
      TrimRightConcat(a, b[..|b| - 1]);
      if !IsSpace(b[|b| - 1]) {
        assert !AllSpace(b);
      }
    } else {
      assert a + b == a;
    }
  }

  lemma DropTrailingSpace(s: string)
    requires s != [] && IsSpace(s[|s| - 1])
    ensures Strip(s) == Strip(s[..|s| - 1])
  {
    var init := s[..|s| - 1];
    assert s == init + [s[|s| - 1]];
    TrimLeftConcat(init, [s[|s| - 1]]);
    if !AllSpace(init) {
      var l := TrimLeft(init) + [s[|s| - 1]];
      assert l[..|l| - 1] == TrimLeft(init);
    }
  }

  // ---------------------------------------------------------------------------
  // str.split() and sep.join(parts)
  // ---------------------------------------------------------------------------

  /** The leading run of non-whitespace characters of `s`. */
  function TakeWord(s: string): (w: string)
    ensures |w| <= |s| && w == s[..|w|] && NoSpace(w)
    ensures |w| == |s| || IsSpace(s[|w|])
  {
    if s == [] || IsSpace(s[0]) then [] else [s[0]] + TakeWord(s[1..])
  }

  /** `s.split()` with no separator: the maximal runs of non-whitespace characters. */
  function Words(s: string): (ws: seq<string>)
    ensures forall i :: 0 <= i < |ws| ==> ws[i] != [] && NoSpace(ws[i])
    decreases |s|
  {
    var t := TrimLeft(s);
    if t == [] then []
    else
      var w := TakeWord(t);
      [w] + Words(t[|w|..])
  }

  lemma AppendAssoc<T>(a: seq<T>, b: seq<T>, c: seq<T>)
    ensures (a + b) + c == a + (b + c)
  {
  }

  lemma TakeAppend<T>(a: seq<T>, b: seq<T>, n: nat)
    requires n <= |a|
    ensures (a + b)[..n] == a[..n]
  {
  }

  lemma IndexInPrefix<T>(s: seq<T>, p: seq<T>, i: nat)
    requires |p| <= |s| && s[..|p|] == p && i < |p|
    ensures s[i] == p[i]
  {
    assert s[..|p|][i] == s[i];
  }

  /** `sep.join(parts)`. */
  function Join(sep: string, parts: seq<string>): string {
    if parts == [] then []
    else if |parts| == 1 then parts[0]
    else parts[0] + sep + Join(sep, parts[1..])
  }

  /** Joining two non-empty lists puts one separator between the two joins. */
  lemma {:induction false} JoinAppend(sep: string, xs: seq<string>, ys: seq<string>)
    requires xs != [] && ys != []
    ensures Join(sep, xs + ys) == Join(sep, xs) + sep + Join(sep, ys)
    decreases |xs|
  {
    if |xs| == 1 {
      assert (xs + ys)[1..] == ys;
    } else {
      assert (xs + ys)[1..] == xs[1..] + ys;
      JoinAppend(sep, xs[1..], ys);
    }
  }

  /** The join of a list ends with its last part. */
  lemma {:induction false} JoinEnds(sep: string, parts: seq<string>)
    requires parts != []
    ensures var j := Join(sep, parts); var p := parts[|parts| - 1];
            |p| <= |j| && j[|j| - |p|..] == p
    decreases |parts|
  {
    if |parts| > 1 {
      JoinEnds(sep, parts[1..]);
      var p := parts[|parts| - 1];
      var rest := Join(sep, parts[1..]);
      assert rest[|rest| - |p|..] == p;
      assert (parts[0] + sep + rest)[|parts[0] + sep + rest| - |p|..] == rest[|rest| - |p|..];
    }
  }

  lemma WordsSkipsSpace(c: char, s: string)
    requires IsSpace(c)
    ensures Words([c] + s) == Words(s)
  {
    assert ([c] + s)[1..] == s;
  }

  lemma {:induction false} TakeWordOfWord(w: string, s: string)
    requires NoSpace(w)
    requires s == [] || IsSpace(s[0])
    ensures TakeWord(w + s) == w
  {
    var t := TakeWord(w + s);
    assert forall k :: 0 <= k < |w| ==> (w + s)[k] == w[k];
    assert |w| < |w + s| ==> (w + s)[|w|] == s[0];
  }

  lemma WordsOfWordThen(w: string, s: string)
    requires w != [] && NoSpace(w)
    requires s == [] || IsSpace(s[0])
    ensures Words(w + s) == [w] + Words(s)
  {
    TrimLeftFixpoint(w + s);
    TakeWordOfWord(w, s);
    assert (w + s)[|w|..] == s;
  }

  /** Joining space-free words with one space and splitting again gives back the words. */
  lemma {:induction false} WordsOfJoin(parts: seq<string>)
    requires forall i :: 0 <= i < |parts| ==> parts[i] != [] && NoSpace(parts[i])
    ensures Words(Join(" ", parts)) == parts
  {
    if parts == [] {
      assert Join(" ", parts) == [];
      assert TrimLeft([]) == [];
    } else if |parts| == 1 {
      WordsOfWordThen(parts[0], []);
      assert parts[0] + [] == parts[0];
      assert Words([]) == [] by { assert TrimLeft([]) == []; }
    } else {
      var rest := Join(" ", parts[1..]);
      assert Join(" ", parts) == parts[0] + (" " + rest);
      WordsOfWordThen(parts[0], " " + rest);
      WordsSkipsSpace(' ', rest);
      WordsOfJoin(parts[1..]);
      assert parts == [parts[0]] + parts[1..];
    }
  }

  /** `s` is made of non-empty runs of `ok` characters separated by single `sep` characters. */
  predicate SeparatedBy(s: string, sep: char, ok: char -> bool) {
    && (s == [] || (s[0] != sep && s[|s| - 1] != sep))
    && (forall i :: 0 <= i < |s| ==> s[i] == sep || ok(s[i]))
    && (forall i :: 0 <= i < |s| - 1 && s[i] == sep ==> s[i + 1] != sep)
  }

  lemma {:induction false} JoinSeparated(sep: char, parts: seq<string>, ok: char -> bool)
    requires !ok(sep)
    requires forall i :: 0 <= i < |parts| ==> parts[i] != []
    requires forall i, k :: 0 <= i < |parts| && 0 <= k < |parts[i]| ==> ok(parts[i][k])
    ensures SeparatedBy(Join([sep], parts), sep, ok)
    ensures parts != [] ==> Join([sep], parts) != []
  {
    if |parts| > 1 {
      var p := parts[0];
      var rest := Join([sep], parts[1..]);
      JoinSeparated(sep, parts[1..], ok);
      var s := Join([sep], parts);
      assert s == p + [sep] + rest;
      assert forall k :: 0 <= k < |p| ==> ok(p[k]) by {
        forall k | 0 <= k < |p| ensures ok(p[k]) { assert ok(parts[0][k]); }
      }
      forall i | 0 <= i < |s| ensures s[i] == sep || ok(s[i]) {
        if i < |p| { assert s[i] == p[i]; }
        else if i > |p| { assert s[i] == rest[i - |p| - 1]; }
      }
      assert forall k :: 0 <= k < |p| ==> s[k] == p[k] && s[k] != sep;
      forall i | 0 <= i < |s| - 1 && s[i] == sep ensures s[i + 1] != sep {
        if i == |p| { assert s[i + 1] == rest[0]; }
        else { assert s[i] == rest[i - |p| - 1] && s[i + 1] == rest[i - |p|]; }
      }
      assert s[0] == p[0];
      assert s[|s| - 1] == rest[|rest| - 1];
    } else if |parts| == 1 {
      assert ok(parts[0][0]);
      assert ok(parts[0][|parts[0]| - 1]);
      forall i | 0 <= i < |parts[0]| ensures ok(parts[0][i]) { }
    }
  }

  // ---------------------------------------------------------------------------
  // str.splitlines()
  // ---------------------------------------------------------------------------

  /** Index of the first line boundary of `s`, or `|s|`. */
  function LineEnd(s: string): (i: nat)
    ensures i <= |s| && NoLineBreak(s[..i])
    ensures i == |s| || IsLineBreak(s[i])
  {
    if s == [] || IsLineBreak(s[0]) then 0 else 1 + LineEnd(s[1..])
  }

  /** `s.splitlines()`: no empty last line for a trailing break, `\r\n` counts once. */
  function SplitLines(s: string): (lines: seq<string>)
    ensures forall i :: 0 <= i < |lines| ==> NoLineBreak(lines[i])
    decreases |s|
  {
    if s == [] then []
    else
      var i := LineEnd(s);
      if i == |s| then [s]
      else
        var next := if s[i] == '\r' && i + 1 < |s| && s[i + 1] == '\n' then i + 2 else i + 1;
        [s[..i]] + SplitLines(s[next..])
  }

  lemma LineEndAt(a: string, b: string)
    requires NoLineBreak(a) && b != [] && IsLineBreak(b[0])
    ensures LineEnd(a + b) == |a|
  {
    var i := LineEnd(a + b);
    assert forall k :: 0 <= k < |a| ==> (a + b)[k] == a[k];
    assert (a + b)[|a|] == b[0];
  }

  /** A break-free line followed by `\n` is the first line `splitlines` returns. */
  lemma SplitLinesCons(a: string, b: string)
    requires NoLineBreak(a)
    ensures SplitLines(a + "\n" + b) == [a] + SplitLines(b)
  {
    var s := a + "\n" + b;
    LineEndAt(a, "\n" + b);
    assert s == a + ("\n" + b);
    assert s[..|a|] == a;
    assert s[|a| + 1..] == b;
  }

  lemma JoinThen(parts: seq<string>, rest: string)
    requires |parts| > 1
    ensures Join("\n", parts) + "\n" + rest == parts[0] + "\n" + (Join("\n", parts[1..]) + "\n" + rest)
  {
    var head := parts[0] + "\n";
    var j := Join("\n", parts[1..]);
    assert Join("\n", parts) == head + j;
    AppendAssoc(head, j, "\n");
    AppendAssoc(head, j + "\n", rest);
  }

  /** Break-free lines joined by `\n`, then a `\n`, come back first from `splitlines`. */
  lemma {:induction false} SplitLinesJoin(parts: seq<string>, rest: string)
    requires parts != []
    requires forall i :: 0 <= i < |parts| ==> NoLineBreak(parts[i])
    ensures SplitLines(Join("\n", parts) + "\n" + rest) == parts + SplitLines(rest)
    decreases |parts|
  {
    if |parts| == 1 {
      SplitLinesCons(parts[0], rest);
      assert parts == [parts[0]];
    } else {
      var tail := Join("\n", parts[1..]) + "\n" + rest;
      JoinThen(parts, rest);
      SplitLinesCons(parts[0], tail);
      SplitLinesJoin(parts[1..], rest);
      assert parts == [parts[0]] + parts[1..];
      AppendAssoc([parts[0]], parts[1..], SplitLines(rest));
    }
  }

  /** A text that starts with a non-blank character has a first line that is not blank. */
  lemma SplitLinesFirstNonBlank(s: string)
    requires s != [] && !IsSpace(s[0])
    ensures SplitLines(s) != [] && Strip(SplitLines(s)[0]) != []
  {
    LineBreakIsSpace(s[0]);
    var i := LineEnd(s);
    assert i > 0;
    var first := SplitLines(s)[0];
    assert first[0] == s[0];
  }

  // ---------------------------------------------------------------------------
  // Small helpers
  // ---------------------------------------------------------------------------

  function Repeat(c: char, n: nat): (r: string)
    ensures |r| == n && AllChar(r, c)
  {
    if n == 0 then [] else [c] + Repeat(c, n - 1)
  }

  predicate IsDigit(c: char) {
    '0' <= c <= '9'
  }

  predicate AllDigits(s: string) {
    forall i :: 0 <= i < |s| ==> IsDigit(s[i])
  }

  /** The number a string of decimal digits denotes, read most significant digit first. */
  function DigitsValue(s: string): nat
    requires AllDigits(s)
  {
    if s == [] then 0
    else 10 * DigitsValue(s[..|s| - 1]) + (s[|s| - 1] as int - '0' as int)
  }

  function Pow10(k: nat): nat {
    if k == 0 then 1 else 10 * Pow10(k - 1)
  }

  /** Decimal digits of `n`, as Python's `str(n)` / f-string formatting writes them. */
  function NatToString(n: nat): (r: string)
    ensures r != [] && AllDigits(r)
    ensures r[0] == '0' <==> n == 0
  {
    if n < 10 then [('0' as int + n) as char]
    else NatToString(n / 10) + [('0' as int + n % 10) as char]
  }

  /** The digits `NatToString` writes denote `n` itself. */
  lemma {:induction false} NatToStringValue(n: nat)
    ensures DigitsValue(NatToString(n)) == n
  {
    if n >= 10 {
      var r := NatToString(n);
      assert r[..|r| - 1] == NatToString(n / 10);
      NatToStringValue(n / 10);
    }
  }

  /** A number below `10^w` takes at most `w` digits (one digit for zero). */
  lemma {:induction false} NatToStringLength(n: nat, w: nat)
    requires 1 <= w && n < Pow10(w)
    ensures |NatToString(n)| <= w
  {
    if n >= 10 {
      assert Pow10(1) == 10;
      assert n / 10 < Pow10(w - 1);
      NatToStringLength(n / 10, w - 1);
    }
  }

  /** Leading zeros do not change the value of a digit string. */
  lemma {:induction false} LeadingZerosValue(k: nat, d: string)
    requires AllDigits(d)
    ensures AllDigits(Repeat('0', k) + d) && DigitsValue(Repeat('0', k) + d) == DigitsValue(d)
    decreases |d|
  {
    var z := Repeat('0', k);
    if d == [] {
      assert z + d == z;
      ZerosValue(k);
    } else {
      var d' := d[..|d| - 1];
      assert (z + d)[..|z + d| - 1] == z + d';
      LeadingZerosValue(k, d');
    }
  }

  lemma {:induction false} ZerosValue(k: nat)
    ensures AllDigits(Repeat('0', k)) && DigitsValue(Repeat('0', k)) == 0
  {
    if k > 0 {
      var z := Repeat('0', k);
      assert z == Repeat('0', k - 1) + ['0'] by { RepeatSnoc(k - 1); }
      assert z[..|z| - 1] == Repeat('0', k - 1);
      ZerosValue(k - 1);
    }
  }

  lemma {:induction false} RepeatSnoc(k: nat)
    ensures Repeat('0', k + 1) == Repeat('0', k) + ['0']
  {
    if k > 0 {
      RepeatSnoc(k - 1);
    }
  }

  /** Python's `{n:0Wd}` format: `n` in decimal, left-padded with zeros to `width`. */
  function ZeroPad(n: nat, width: nat): (r: string)
    ensures AllDigits(r)
    ensures var d := NatToString(n);
            && |r| == (if |d| < width then width else |d|)
            && r[|r| - |d|..] == d && AllChar(r[..|r| - |d|], '0')
  {
    var d := NatToString(n);
    var z := if |d| < width then Repeat('0', width - |d|) else [];
    assert (z + d)[..|z|] == z;
    z + d
  }

  /** A number below `10^w`, padded to `w`, takes exactly `w` digits that denote it. */
  lemma ZeroPadFixed(n: nat, w: nat)
    requires 1 <= w && n < Pow10(w)
    ensures |ZeroPad(n, w)| == w && AllDigits(ZeroPad(n, w)) && DigitsValue(ZeroPad(n, w)) == n
  {
    NatToStringLength(n, w);
    ZeroPadValue(n, w);
  }

  /** The padded digits still denote `n`. */
  lemma ZeroPadValue(n: nat, width: nat)
    ensures DigitsValue(ZeroPad(n, width)) == n
  {
    var d := NatToString(n);
    NatToStringValue(n);
    var k := if |d| < width then width - |d| else 0;
    assert ZeroPad(n, width) == Repeat('0', k) + d;
    LeadingZerosValue(k, d);
  }

  /** Number of leading occurrences of `c` in `s`. */
  function CountLeading(s: string, c: char): (k: nat)
    ensures k <= |s| && AllChar(s[..k], c) && (k == |s| || s[k] != c)
  {
    if s != [] && s[0] == c then 1 + CountLeading(s[1..], c) else 0
  }

  /** A run of `n` copies of `c` followed by something else counts as `n` leading `c`s. */
  lemma {:induction false} CountLeadingOfRepeat(c: char, n: nat, s: string)
    requires s == [] || s[0] != c
    ensures CountLeading(Repeat(c, n) + s, c) == n
  {
    if n > 0 {
      assert (Repeat(c, n) + s)[1..] == Repeat(c, n - 1) + s;
      CountLeadingOfRepeat(c, n - 1, s);
    } else {
      assert Repeat(c, n) + s == s;
    }
  }

  predicate EndsWith(s: string, suffix: string) {
    |suffix| <= |s| && s[|s| - |suffix|..] == suffix
  }

  /** Index of the first `c` in `s`. */
  function IndexOf(s: string, c: char): (i: nat)
    requires c in s
    ensures i < |s| && s[i] == c && c !in s[..i]
  {
    if s[0] == c then 0 else 1 + IndexOf(s[1..], c)
  }

  // ---------------------------------------------------------------------------
  // Subsequences
  // ---------------------------------------------------------------------------

  /** How many times `x` occurs in `s`. */
  function Occurrences<T(==)>(s: seq<T>, x: T): nat {
    if s == [] then 0
    else Occurrences(s[..|s| - 1], x) + (if s[|s| - 1] == x then 1 else 0)
  }

  /** One more element counts once more for itself and not for anything else. */
  lemma OccurrencesSnoc<T>(s: seq<T>, y: T, x: T)
    ensures Occurrences(s + [y], x) == Occurrences(s, x) + (if y == x then 1 else 0)
  {
    assert (s + [y])[..|s|] == s;
  }

  /**
   * The counting step of a filter: if `a` counts `x` as `b` does when `x` is
   * kept and not at all otherwise, then appending `n` to `b`, and to `a`
   * exactly when `n` is kept, preserves that.
   */
  lemma OccurrencesFilterSnoc<T>(a: seq<T>, b: seq<T>, n: T, x: T, keepN: bool, keepX: bool)
    requires Occurrences(a, x) == if keepX then Occurrences(b, x) else 0
    requires n == x ==> keepN == keepX
    ensures Occurrences(a + (if keepN then [n] else []), x) == if keepX then Occurrences(b + [n], x) else 0
  {
    OccurrencesSnoc(b, n, x);
    if keepN {
      assert a + (if keepN then [n] else []) == a + [n];
      OccurrencesSnoc(a, n, x);
    } else {
      assert a + (if keepN then [n] else []) == a;
    }
  }

  /** `a` is `b` with some elements deleted: the elements of `a` occur in `b`, in order. */
  predicate Subseq<T(==)>(a: seq<T>, b: seq<T>)
    decreases |b|
  {
    if a == [] then true
    else if b == [] then false
    else (a[|a| - 1] == b[|b| - 1] && Subseq(a[..|a| - 1], b[..|b| - 1])) || Subseq(a, b[..|b| - 1])
  }

  lemma {:induction false} SubseqRefl<T>(a: seq<T>)
    ensures Subseq(a, a)
    decreases |a|
  {
    if a != [] {
      SubseqRefl(a[..|a| - 1]);
    }
  }

  lemma {:induction false} SubseqAppendRight<T>(a: seq<T>, b: seq<T>, y: seq<T>)
    requires Subseq(a, b)
    ensures Subseq(a, b + y)
    decreases |y|
  {
    if y == [] {
      assert b + y == b;
    } else if a != [] {
      var init := y[..|y| - 1];
      assert (b + y)[..|b + y| - 1] == b + init;
      SubseqAppendRight(a, b, init);
    }
  }

  /** Subsequences concatenate. */
  lemma {:induction false} SubseqConcat<T>(a: seq<T>, b: seq<T>, c: seq<T>, d: seq<T>)
    requires Subseq(a, b) && Subseq(c, d)
    ensures Subseq(a + c, b + d)
    decreases |d|
  {
    if c == [] {
      assert a + c == a;
      SubseqAppendRight(a, b, d);
    } else {
      var c0 := c[..|c| - 1];
      var d0 := d[..|d| - 1];
      assert (a + c)[..|a + c| - 1] == a + c0;
      assert (b + d)[..|b + d| - 1] == b + d0;
      if c[|c| - 1] == d[|d| - 1] && Subseq(c0, d0) {
        SubseqConcat(a, b, c0, d0);
      } else {
        SubseqConcat(a, b, c, d0);
      }
    }
  }

  lemma SubseqPrependLeft<T>(a: seq<T>, x: seq<T>, b: seq<T>)
    requires Subseq(a, b)
    ensures Subseq(a, x + b)
  {
    SubseqConcat([], x, a, b);
    assert [] + a == a;
  }
}
