/** The JavaScript string operations the board relies on, stated over `seq<char>`. */
module Text {

  /** White space as ECMAScript's `trim` and the regular-expression class `\s` see it:
      the WhiteSpace characters (TAB, VT, FF, SP, NBSP, ZWNBSP and the Zs category)
      and the LineTerminator characters (LF, CR, LS, PS). */
  predicate IsWhitespace(c: char) {
    || c == '\t' || c == '\n' || c == '\U{0B}' || c == '\U{0C}' || c == '\r' || c == ' '
    || c == '\U{A0}' || c == '\U{1680}' || ('\U{2000}' <= c <= '\U{200A}')
    || c == '\U{2028}' || c == '\U{2029}' || c == '\U{202F}' || c == '\U{205F}'
    || c == '\U{3000}' || c == '\U{FEFF}'
  }

  /** `s` is empty, or begins and ends with a character that is not white space. */
  predicate IsTrimmed(s: string) {
    s == [] || (!IsWhitespace(s[0]) && !IsWhitespace(s[|s| - 1]))
  }

  /** `s.trimStart()`: drops the leading white space and nothing else. */
  function TrimStart(s: string): (r: string)
    ensures |r| <= |s| && r == s[|s| - |r|..]
    ensures r == [] || !IsWhitespace(r[0])
    ensures forall i :: 0 <= i < |s| - |r| ==> IsWhitespace(s[i])
  {
    if s != [] && IsWhitespace(s[0]) then TrimStart(s[1..]) else s
  }

  /** `s.trimEnd()`: drops the trailing white space and nothing else. */
  function TrimEnd(s: string): (r: string)
    ensures |r| <= |s| && r == s[..|r|]
    ensures r == [] || !IsWhitespace(r[|r| - 1])
    ensures forall i :: |r| <= i < |s| ==> IsWhitespace(s[i])
  {
    if s != [] && IsWhitespace(s[|s| - 1]) then TrimEnd(s[..|s| - 1]) else s
  }

  /** `s.trim()`: the middle of `s` once the white space at both ends is cut off. */
  function Trim(s: string): (r: string)
    ensures IsTrimmed(r) && |r| <= |s|
  {
    TrimEnd(TrimStart(s))
  }

  /** `s` holds white space only, so `s.trim()` is empty. */
  predicate IsBlank(s: string) {
    forall i :: 0 <= i < |s| ==> IsWhitespace(s[i])
  }

  lemma BlankIffTrimEmpty(s: string)
    ensures IsBlank(s) <==> Trim(s) == []
  {
    var t := TrimStart(s);
    if t != [] {
      assert !IsWhitespace(t[0]);
      assert s[|s| - |t|] == t[0];
    }
  }

  lemma TrimOfTrimmed(s: string)
    requires IsTrimmed(s)
    ensures Trim(s) == s
  {
  }

  /** One leading blank in front of a trimmed string is removed by `trim`. */
  lemma TrimAfterBlank(x: string)
    requires IsTrimmed(x)
    ensures Trim(" " + x) == x
  {
    assert (" " + x)[1..] == x;
  }

  /** `s.startsWith(prefix)`. */
  predicate StartsWith(s: string, prefix: string) {
    |prefix| <= |s| && s[..|prefix|] == prefix
  }

  /** `s.replace(pattern, replacement)` with a string pattern: only the FIRST
      occurrence of `pattern`, wherever it stands, is replaced. */
  function ReplaceFirst(s: string, pattern: string, replacement: string): string
    decreases |s|
  {
    if StartsWith(s, pattern) then replacement + s[|pattern|..]
    else if s == [] then s
    else [s[0]] + ReplaceFirst(s[1..], pattern, replacement)
  }

  /** `s.split(sep)` for a one-character separator: the pieces between the
      separators, empty pieces included; the empty string gives `[""]`. */
  function Split(s: string, sep: char): (r: seq<string>)
    ensures |r| >= 1
    ensures forall i :: 0 <= i < |r| ==> sep !in r[i]
  {
    if s == [] then [""]
    else
      var rest := Split(s[1..], sep);
      if s[0] == sep then [""] + rest else [[s[0]] + rest[0]] + rest[1..]
  }

  /** `xs.join(sep)`. */
  function Join(xs: seq<string>, sep: string): string {
    if xs == [] then "" else if |xs| == 1 then xs[0] else xs[0] + sep + Join(xs[1..], sep)
  }

  /** Joining the pieces of a split with the separator gives back the string. */
  lemma {:induction false} JoinOfSplit(s: string, sep: char)
    ensures Join(Split(s, sep), [sep]) == s
  {
    if s != [] {
      var rest := Split(s[1..], sep);
      JoinOfSplit(s[1..], sep);
      if s[0] == sep {
        assert ([""] + rest)[1..] == rest;
      } else if |rest| > 1 {
        var r := [[s[0]] + rest[0]] + rest[1..];
        assert r[1..] == rest[1..];
        assert Join(rest, [sep]) == rest[0] + [sep] + Join(rest[1..], [sep]);
      }
    }
  }

  /** A separator-free prefix sticks to the first piece. */
  lemma {:induction false} SplitPrefix(a: string, b: string, sep: char)
    requires sep !in a
    ensures Split(a + b, sep) == [a + Split(b, sep)[0]] + Split(b, sep)[1..]
  {
    var pieces := Split(b, sep);
    if a != [] {
      assert (a + b)[1..] == a[1..] + b;
      SplitPrefix(a[1..], b, sep);
      assert [a[0]] + (a[1..] + pieces[0]) == a + pieces[0];
    } else {
      assert a + b == b && a + pieces[0] == pieces[0];
      assert pieces == [pieces[0]] + pieces[1..];
    }
  }

  /** A separator in front adds an empty first piece. */
  /** A string without the separator is one piece. */
  lemma SplitWithoutSeparator(s: string, sep: char)
    requires sep !in s
    ensures Split(s, sep) == [s]
  {
    SplitPrefix(s, "", sep);
    assert s + "" == s;
  }

  lemma SplitAfterSeparator(b: string, sep: char)
    ensures Split([sep] + b, sep) == [""] + Split(b, sep)
  {
    assert ([sep] + b)[1..] == b;
  }

  /** Each string of `ys` with one blank put in front. */
  function Blanked(ys: seq<string>): (r: seq<string>)
    ensures |r| == |ys| && forall i :: 0 <= i < |ys| ==> r[i] == " " + ys[i]
  {
    seq(|ys|, i requires 0 <= i < |ys| => " " + ys[i])
  }

  /** Splitting `xs.join(', ')` on commas gives the items back, each after the
      first with the blank of the separator in front, when no item has a comma. */
  lemma {:induction false} SplitOfCommaSpaceJoin(xs: seq<string>)
    requires xs != []
    requires forall i :: 0 <= i < |xs| ==> ',' !in xs[i]
    ensures Split(Join(xs, ", "), ',') == [xs[0]] + Blanked(xs[1..])
  {
    if |xs| == 1 {
      SplitPrefix(xs[0], "", ',');
      assert xs[0] + "" == xs[0];
      assert Blanked(xs[1..]) == [];
    } else {
      var tail := Join(xs[1..], ", ");
      var rest := Split(tail, ',');
      SplitOfCommaSpaceJoin(xs[1..]);
      assert rest == [xs[1]] + Blanked(xs[2..]) by {
        assert xs[1..][0] == xs[1] && xs[1..][1..] == xs[2..];
      }
      var blankTail := " " + tail;
      SplitPrefix(" ", tail, ',');
      assert Split(blankTail, ',') == [" " + xs[1]] + Blanked(xs[2..]);
      assert Split(blankTail, ',') == Blanked(xs[1..]);
      assert Join(xs, ", ") == xs[0] + ([','] + blankTail);
      SplitAfterSeparator(blankTail, ',');
      SplitPrefix(xs[0], [','] + blankTail, ',');
      assert xs[0] + "" == xs[0];
    }
  }

  /** `xs.map((x) => x.trim())`. */
  function TrimAll(xs: seq<string>): (r: seq<string>)
    ensures |r| == |xs| && forall i :: 0 <= i < |xs| ==> r[i] == Trim(xs[i])
  {
    seq(|xs|, i requires 0 <= i < |xs| => Trim(xs[i]))
  }

  /** No character of `s` is white space. */
  predicate NoWhitespace(s: string) {
    forall i :: 0 <= i < |s| ==> !IsWhitespace(s[i])
  }

  /** `s.split(/\s+/)`: the pieces between runs of white space; a run at
      either end leaves an empty piece there, and the empty string gives `[""]`. */
  function Words(s: string): (r: seq<string>)
    ensures |r| >= 1
    decreases |s|
  {
    if s == [] then [""]
    else if IsWhitespace(s[0]) then
      var rest := TrimStart(s);
      assert rest != s;
      [""] + Words(rest)
    else
      var pieces := Words(s[1..]);
      [[s[0]] + pieces[0]] + pieces[1..]
  }

  lemma {:induction false} WordsHaveNoWhitespace(s: string)
    ensures forall i :: 0 <= i < |Words(s)| ==> NoWhitespace(Words(s)[i])
    decreases |s|
  {
    if s != [] {
      if IsWhitespace(s[0]) {
        WordsHaveNoWhitespace(TrimStart(s));
      } else {
        WordsHaveNoWhitespace(s[1..]);
        var pieces := Words(s[1..]);
        assert NoWhitespace([s[0]] + pieces[0]) by {
          assert NoWhitespace(pieces[0]);
        }
      }
    }
  }

  /** The first piece is where `s` starts, up to the first white space. */
  lemma {:induction false} FirstWord(s: string)
    ensures var r := Words(s);
            && |r[0]| <= |s| && s[..|r[0]|] == r[0]
            && (|r| > 1 ==> |r[0]| < |s| && IsWhitespace(s[|r[0]|]))
            && (|r| == 1 ==> r[0] == s)
  {
    if s != [] && !IsWhitespace(s[0]) {
      FirstWord(s[1..]);
      assert s == [s[0]] + s[1..];
    }
  }

  /** `s` ends with `w`, and when `before` holds a white-space character precedes it. */
  predicate EndsWithWord(s: string, w: string, before: bool) {
    && |w| <= |s| && s[|s| - |w|..] == w
    && (before ==> |w| < |s| && IsWhitespace(s[|s| - |w| - 1]))
  }

  /** The last piece is where `s` ends, back to the last white space. */
  lemma {:induction false} LastWord(s: string)
    ensures EndsWithWord(s, Words(s)[|Words(s)| - 1], |Words(s)| > 1)
    decreases |s|
  {
    if s != [] {
      if IsWhitespace(s[0]) {
        LastWordAfterBlank(s);
      } else {
        LastWordOfWordStart(s);
      }
    }
  }

  /** A suffix of a suffix of `s` is a suffix of `s`, preceded by the same
      character. */
  lemma SuffixOfSuffix<T>(s: seq<T>, rest: seq<T>, w: seq<T>)
    requires |rest| <= |s| && s[|s| - |rest|..] == rest
    requires |w| <= |rest| && rest[|rest| - |w|..] == w
    ensures s[|s| - |w|..] == w
    ensures |w| < |rest| ==> s[|s| - |w| - 1] == rest[|rest| - |w| - 1]
  {
    assert s[|s| - |w|..] == rest[|rest| - |w|..];
    if |w| < |rest| {
      assert s[|s| - |w| - 1] == s[|s| - |rest|..][|rest| - |w| - 1];
    }
  }

  lemma {:induction false} LastWordAfterBlank(s: string)
    requires s != [] && IsWhitespace(s[0])
    ensures EndsWithWord(s, Words(s)[|Words(s)| - 1], |Words(s)| > 1)
    decreases |s|, 0
  {
    var rest := TrimStart(s);
    var q := Words(rest);
    BlankStart(s);
    BlankStartWords(s);
    LastWord(rest);
    FirstWord(rest);
    EndsAfterBlank(s, rest, q, Words(s));
  }

  /** A word that ends `rest`, and is `rest` itself unless white space
      precedes it, ends `s` after white space when `s` is white space
      followed by `rest`; `pieces`, one longer than `q`, ends with that word. */
  lemma EndsAfterBlank(s: string, rest: string, q: seq<string>, pieces: seq<string>)
    requires |rest| < |s| && s[|s| - |rest|..] == rest && IsWhitespace(s[|s| - |rest| - 1])
    requires q != [] && EndsWithWord(rest, q[|q| - 1], |q| > 1) && (|q| <= 1 ==> q[|q| - 1] == rest)
    requires |pieces| == |q| + 1 && pieces[|q|] == q[|q| - 1]
    ensures EndsWithWord(s, pieces[|pieces| - 1], |pieces| > 1)
  {
    var w := q[|q| - 1];
    SuffixOfSuffix(s, rest, w);
    assert EndsWithWord(s, w, true);
  }

  /** What `trimStart` leaves of a text that starts with white space is a
      shorter suffix that follows a white-space character. */
  lemma BlankStart(s: string)
    requires s != [] && IsWhitespace(s[0])
    ensures var rest := TrimStart(s);
            |rest| < |s| && s[|s| - |rest|..] == rest && IsWhitespace(s[|s| - |rest| - 1])
  {
    var rest := TrimStart(s);
    if rest != [] {
      assert rest[0] == s[|s| - |rest|];
    }
  }

  /** Such a text splits into an empty piece followed by the pieces of that
      suffix, so both end with the same piece. */
  lemma BlankStartWords(s: string)
    requires s != [] && IsWhitespace(s[0])
    ensures var q := Words(TrimStart(s));
            |Words(s)| == |q| + 1 && Words(s)[|q|] == q[|q| - 1]
  {
    var q := Words(TrimStart(s));
    assert Words(s) == [""] + q;
  }

  lemma {:induction false} LastWordOfWordStart(s: string)
    requires s != [] && !IsWhitespace(s[0])
    ensures EndsWithWord(s, Words(s)[|Words(s)| - 1], |Words(s)| > 1)
    decreases |s|, 0
  {
    var q := Words(s[1..]);
    assert Words(s) == [[s[0]] + q[0]] + q[1..];
    LastWord(s[1..]);
    if |q| == 1 {
      FirstWord(s[1..]);
      assert s == [s[0]] + s[1..];
      assert Words(s)[|Words(s)| - 1] == s;
    } else {
      var w := q[|q| - 1];
      assert Words(s)[|Words(s)| - 1] == w;
      assert s[|s| - |w|..] == s[1..][|s| - 1 - |w|..];
      assert s[|s| - |w| - 1] == s[1..][|s| - 1 - |w| - 1];
    }
  }

  /** ASCII upper-casing of one character. */
  function UpperChar(c: char): char {
    if 'a' <= c <= 'z' then (c as int - 32) as char else c
  }

  /** Upper-casing neither makes nor removes white space. */
  lemma UpperCharWhitespace(c: char)
    ensures IsWhitespace(UpperChar(c)) <==> IsWhitespace(c)
  {
  }

  /** `s.toUpperCase()` restricted to ASCII letters. */
  function Upper(s: string): (r: string)
    ensures |r| == |s|
  {
    seq(|s|, i requires 0 <= i < |s| => UpperChar(s[i]))
  }
}
