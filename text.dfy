/**
 * String helpers with the meaning the Rust standard library gives them:
 * `char::is_whitespace`, `str::split_whitespace`, `str::trim_end`, `str::lines`,
 * and the split of a newline-terminated text into its lines.
 * Strings are sequences of Unicode scalar values.
 */
module Text {

  /**
   * Rust's `char::is_whitespace`: the Unicode White_Space property. Among ASCII
   * characters it holds for the space and for tab, line feed, vertical tab, form feed
   * and carriage return.
   */
  predicate IsWhitespace(c: char)
    ensures c < '\U{80}' ==> (IsWhitespace(c) <==> c == ' ' || '\t' <= c <= '\r')
  {
    || c == ' '
    || ('\t' <= c <= '\r')
    || c == '\U{85}'
    || c == '\U{A0}'
    || c == '\U{1680}'
    || ('\U{2000}' <= c <= '\U{200A}')
    || c == '\U{2028}'
    || c == '\U{2029}'
    || c == '\U{202F}'
    || c == '\U{205F}'
    || c == '\U{3000}'
  }

  /** A word as `split_whitespace` yields it: non-empty, without whitespace. */
  predicate IsWord(w: string) {
    w != [] && forall i :: 0 <= i < |w| ==> !IsWhitespace(w[i])
  }

  predicate AllSpaces(s: string) {
    forall i :: 0 <= i < |s| ==> s[i] == ' '
  }

  /** Number of non-whitespace characters at the start of `s`. */
  function WordLength(s: string): (n: nat)
    ensures n <= |s|
    ensures forall i :: 0 <= i < n ==> !IsWhitespace(s[i])
    ensures n < |s| ==> IsWhitespace(s[n])
  {
    if s == [] || IsWhitespace(s[0]) then 0 else 1 + WordLength(s[1..])
  }

  /** `str::split_whitespace`: the maximal runs of non-whitespace characters, in order. */
  function Words(s: string): (ws: seq<string>)
    ensures forall k :: 0 <= k < |ws| ==> IsWord(ws[k])
    decreases |s|
  {
    if s == [] then []
    else if IsWhitespace(s[0]) then Words(s[1..])
    else
      var n := WordLength(s);
      [s[..n]] + Words(s[n..])
  }

  /** A text has no words exactly when it is all whitespace. */
  lemma {:induction false} NoWordsIffBlank(s: string)
    ensures Words(s) == [] <==> forall i :: 0 <= i < |s| ==> IsWhitespace(s[i])
    decreases |s|
  {
    if s != [] && IsWhitespace(s[0]) {
      NoWordsIffBlank(s[1..]);
      assert forall i :: 1 <= i < |s| ==> s[i] == s[1..][i - 1];
    }
  }

  /** The characters of `s` that are not whitespace, in order. */
  function NonWhitespace(s: string): string {
    if s == [] then []
    else if IsWhitespace(s[0]) then NonWhitespace(s[1..])
    else [s[0]] + NonWhitespace(s[1..])
  }

  function Concat(ws: seq<string>): string {
    if ws == [] then [] else ws[0] + Concat(ws[1..])
  }

  lemma {:induction false} NonWhitespaceAppend(a: string, b: string)
    ensures NonWhitespace(a + b) == NonWhitespace(a) + NonWhitespace(b)
  {
    if a == [] {
      assert a + b == b;
    } else {
      assert (a + b)[0] == a[0] && (a + b)[1..] == a[1..] + b;
      NonWhitespaceAppend(a[1..], b);
    }
  }

  lemma {:induction false} NonWhitespaceOfWord(w: string)
    requires forall i :: 0 <= i < |w| ==> !IsWhitespace(w[i])
    ensures NonWhitespace(w) == w
  {
    if w != [] {
      NonWhitespaceOfWord(w[1..]);
      assert w == [w[0]] + w[1..];
    }
  }

  /** Nothing but whitespace is lost: the words, concatenated, are the text without its whitespace. */
  lemma {:induction false} WordsKeepText(s: string)
    ensures Concat(Words(s)) == NonWhitespace(s)
    decreases |s|
  {
    if s != [] {
      if IsWhitespace(s[0]) {
        WordsKeepText(s[1..]);
      } else {
        var n := WordLength(s);
        var ws := Words(s);
        assert ws[0] == s[..n] && ws[1..] == Words(s[n..]);
        WordsKeepText(s[n..]);
        assert s == s[..n] + s[n..];
        NonWhitespaceAppend(s[..n], s[n..]);
        NonWhitespaceOfWord(s[..n]);
      }
    }
  }

  /** `w` occurs in `s` at `i` as a maximal run: whitespace or a text end on both sides. */
  predicate RunAt(s: string, w: string, i: nat) {
    && i + |w| <= |s| && s[i..i + |w|] == w
    && (i == 0 || IsWhitespace(s[i - 1]))
    && (i + |w| == |s| || IsWhitespace(s[i + |w|]))
  }

  /**
   * Every word is a maximal run of the text: it occurs at some `i`, after whitespace or
   * the start of the text, and is followed by whitespace or the end of the text. The text
   * before it holds exactly the words before it, so the words come in text order.
   */
  lemma {:induction false} WordInText(s: string, k: nat) returns (i: nat)
    requires k < |Words(s)|
    ensures RunAt(s, Words(s)[k], i)
    ensures NonWhitespace(s[..i]) == Concat(Words(s)[..k])
    decreases |s|, 1
  {
    if IsWhitespace(s[0]) {
      i := WordAfterSpace(s, k);
    } else if k == 0 {
      i := 0;
      FirstWordRun(s, WordLength(s));
      assert s[..0] == [] && Words(s)[..0] == [];
    } else {
      i := WordAfterWord(s, k);
    }
  }

  lemma {:induction false} WordAfterSpace(s: string, k: nat) returns (i: nat)
    requires s != [] && IsWhitespace(s[0]) && k < |Words(s)|
    ensures RunAt(s, Words(s)[k], i)
    ensures NonWhitespace(s[..i]) == Concat(Words(s)[..k])
    decreases |s|, 0
  {
    WordsOfSpaceStart(s);
    var w := Words(s)[k];
    assert w == Words(s[1..])[k];
    var j := WordInText(s[1..], k);
    i := j + 1;
    RunAfterSpace(s, w, j);
    BeforeAfterSpace(s, k, j);
  }

  lemma {:induction false} WordAfterWord(s: string, k: nat) returns (i: nat)
    requires s != [] && !IsWhitespace(s[0]) && 0 < k < |Words(s)|
    ensures RunAt(s, Words(s)[k], i)
    ensures NonWhitespace(s[..i]) == Concat(Words(s)[..k])
    decreases |s|, 0
  {
    var n, w := WordLength(s), Words(s)[k];
    LaterWordOfWordStart(s, n, k);
    var j := WordInText(s[n..], k - 1);
    i := n + j;
    RunAfterWord(s, n, w, j);
    BeforeAfterWord(s, n, k, j);
  }

  lemma {:induction false} BeforeAfterSpace(s: string, k: nat, j: nat)
    requires s != [] && IsWhitespace(s[0]) && k < |Words(s)| && j < |s|
    requires NonWhitespace(s[1..][..j]) == Concat(Words(s[1..])[..k])
    ensures NonWhitespace(s[..j + 1]) == Concat(Words(s)[..k])
  {
    WordsOfSpaceStart(s);
    assert s[..j + 1][0] == s[0] && s[..j + 1][1..] == s[1..][..j];
  }

  lemma {:induction false} BeforeAfterWord(s: string, n: nat, k: nat, j: nat)
    requires s != [] && !IsWhitespace(s[0]) && n == WordLength(s) && 0 < k < |Words(s)|
    requires n + j <= |s| && NonWhitespace(s[n..][..j]) == Concat(Words(s[n..])[..k - 1])
    ensures NonWhitespace(s[..n + j]) == Concat(Words(s)[..k])
  {
    assert s[..n + j] == s[..n] + s[n..][..j];
    NonWhitespaceAppend(s[..n], s[n..][..j]);
    NonWhitespaceOfWord(s[..n]);
    FirstWordsConcat(s, n, k);
  }

  lemma {:induction false} FirstWordsConcat(s: string, n: nat, k: nat)
    requires s != [] && !IsWhitespace(s[0]) && n == WordLength(s) && 0 < k < |Words(s)|
    ensures k - 1 <= |Words(s[n..])| && Concat(Words(s)[..k]) == s[..n] + Concat(Words(s[n..])[..k - 1])
  {
    WordsOfWordStart(s, n);
    var ws := Words(s)[..k];
    assert ws[0] == s[..n] && ws[1..] == Words(s[n..])[..k - 1];
  }

  lemma {:induction false} LaterWordOfWordStart(s: string, n: nat, k: nat)
    requires s != [] && !IsWhitespace(s[0]) && n == WordLength(s) && 0 < k < |Words(s)|
    ensures 0 < n < |s| && k - 1 < |Words(s[n..])| && Words(s)[k] == Words(s[n..])[k - 1]
  {
    WordsOfWordStart(s, n);
  }

  lemma {:induction false} FirstWordRun(s: string, n: nat)
    requires s != [] && !IsWhitespace(s[0]) && n == WordLength(s)
    ensures |Words(s)| > 0 && RunAt(s, Words(s)[0], 0)
  {
    WordsOfWordStart(s, n);
  }

  lemma {:induction false} WordsOfSpaceStart(s: string)
    requires s != [] && IsWhitespace(s[0])
    ensures Words(s) == Words(s[1..])
  {
  }

  lemma {:induction false} WordsOfWordStart(s: string, n: nat)
    requires s != [] && !IsWhitespace(s[0]) && n == WordLength(s)
    ensures Words(s) == [s[..n]] + Words(s[n..])
  {
  }

  lemma {:induction false} SliceOfSuffix(s: string, n: nat, a: nat, b: nat)
    requires n + b <= |s| && a <= b
    ensures s[n..][a..b] == s[n + a..n + b]
  {
  }

  lemma {:induction false} RunAfterSpace(s: string, w: string, j: nat)
    requires s != [] && IsWhitespace(s[0]) && RunAt(s[1..], w, j)
    ensures RunAt(s, w, j + 1)
  {
    var i := j + 1;
    SliceOfSuffix(s, 1, j, j + |w|);
    assert s[i - 1] == (if j == 0 then s[0] else s[1..][j - 1]);
    if i + |w| < |s| {
      assert s[i + |w|] == s[1..][j + |w|];
    }
  }

  lemma {:induction false} RunAfterWord(s: string, n: nat, w: string, j: nat)
    requires n == WordLength(s) && IsWord(w) && RunAt(s[n..], w, j)
    ensures RunAt(s, w, n + j)
  {
    var rest, i := s[n..], n + j;
    assert rest[j] == w[0];
    assert n < |s| && IsWhitespace(s[n]) && s[n] == rest[0];
    SliceOfSuffix(s, n, j, j + |w|);
    assert s[i - 1] == rest[j - 1];
    if i + |w| < |s| {
      assert s[i + |w|] == rest[j + |w|];
    }
  }

  /** The words joined by single spaces: the inverse of `Words` on words. */
  function Unwords(ws: seq<string>): string {
    if ws == [] then []
    else if |ws| == 1 then ws[0]
    else ws[0] + " " + Unwords(ws[1..])
  }

  lemma {:induction false} WordLengthOfWord(w: string, rest: string)
    requires IsWord(w)
    requires rest == [] || IsWhitespace(rest[0])
    ensures WordLength(w + rest) == |w|
    decreases |w|
  {
    if |w| > 1 {
      assert (w + rest)[1..] == w[1..] + rest;
      WordLengthOfWord(w[1..], rest);
    } else {
      assert (w + rest)[1..] == rest;
    }
  }

  /** A word followed by whitespace splits off as the first word. */
  lemma {:induction false} WordsOfWordThen(w: string, rest: string)
    requires IsWord(w)
    requires rest == [] || IsWhitespace(rest[0])
    ensures Words(w + rest) == [w] + Words(rest)
  {
    WordLengthOfWord(w, rest);
    assert (w + rest)[..|w|] == w;
    assert (w + rest)[|w|..] == rest;
  }

  /** A word followed by a newline is one word. */
  lemma {:induction false} WordsOfLine(w: string)
    requires IsWord(w)
    ensures Words(w + "\n") == [w]
  {
    WordsOfWordThen(w, "\n");
    assert "\n"[1..] == [];
  }

  /** Splitting words that were joined by spaces gives the words back. */
  lemma {:induction false} WordsUnwords(ws: seq<string>)
    requires forall k :: 0 <= k < |ws| ==> IsWord(ws[k])
    ensures Words(Unwords(ws)) == ws
  {
    if |ws| == 1 {
      WordsOfWordThen(ws[0], []);
      assert ws[0] + [] == ws[0];
    } else if |ws| > 1 {
      var rest := " " + Unwords(ws[1..]);
      assert Unwords(ws) == ws[0] + rest;
      WordsOfWordThen(ws[0], rest);
      assert rest[1..] == Unwords(ws[1..]);
      WordsUnwords(ws[1..]);
    }
  }

  /** `str::trim_end`: the longest prefix that does not end in whitespace. */
  function TrimEnd(s: string): (r: string)
    ensures r <= s
    ensures r == [] || !IsWhitespace(r[|r| - 1])
    ensures forall i :: |r| <= i < |s| ==> IsWhitespace(s[i])
  {
    if s == [] || !IsWhitespace(s[|s| - 1]) then s else TrimEnd(s[..|s| - 1])
  }

  /** Trimming removes exactly a whitespace tail from a text that has none of its own. */
  lemma {:induction false} TrimEndOfPadded(s: string, pad: string)
    requires s == [] || !IsWhitespace(s[|s| - 1])
    requires forall i :: 0 <= i < |pad| ==> IsWhitespace(pad[i])
    ensures TrimEnd(s + pad) == s
  {
    var t := s + pad;
    var r := TrimEnd(t);
    assert forall i :: |s| <= i < |t| ==> IsWhitespace(t[i]) by {
      forall i | |s| <= i < |t| ensures IsWhitespace(t[i]) {
        assert t[i] == pad[i - |s|];
      }
    }
    if s != [] {
      assert t[|s| - 1] == s[|s| - 1];
    }
    assert t[..|s|] == s;
  }

  /** Number of ' ' characters at the start of `s` (`take_while(|&c| c == ' ').count()`). */
  function LeadingSpaces(s: string): (n: nat)
    ensures n <= |s|
    ensures forall i :: 0 <= i < n ==> s[i] == ' '
    ensures n < |s| ==> s[n] != ' '
  {
    if s == [] || s[0] != ' ' then 0 else 1 + LeadingSpaces(s[1..])
  }

  /** Index of the first '\n' in `s`, or `|s|` when there is none. */
  function LineLength(s: string): (k: nat)
    ensures k <= |s|
    ensures forall i :: 0 <= i < k ==> s[i] != '\n'
    ensures k < |s| ==> s[k] == '\n'
  {
    if s == [] || s[0] == '\n' then 0 else 1 + LineLength(s[1..])
  }

  /**
   * The lines of a text, each without its '\n'. A newline-terminated text is the
   * concatenation of its lines, each followed by '\n'; an unterminated last
   * piece is kept as a line of its own.
   */
  function SplitLines(t: string): (ls: seq<string>)
    ensures forall k :: 0 <= k < |ls| ==> '\n' !in ls[k]
    decreases |t|
  {
    if t == [] then []
    else
      var k := LineLength(t);
      if k == |t| then [t] else [t[..k]] + SplitLines(t[k + 1..])
  }

  /** Each line followed by '\n', concatenated. */
  function Unlines(ls: seq<string>): (t: string)
    ensures t == [] || t[|t| - 1] == '\n'
  {
    if ls == [] then [] else ls[0] + "\n" + Unlines(ls[1..])
  }

  /** A text whose first line, of length `k`, ends in '\n' is that line, the '\n', and the rest. */
  lemma {:induction false} FirstLineSplit(t: string, k: nat)
    requires k == LineLength(t) && k < |t|
    ensures SplitLines(t) == [t[..k]] + SplitLines(t[k + 1..])
    ensures RustLines(t) == [StripCarriageReturn(t[..k])] + RustLines(t[k + 1..])
    ensures t == t[..k] + "\n" + t[k + 1..]
  {
    FirstLineSplitLines(t, k);
    FirstLineRustLines(t, k);
    FirstLineConcat(t, k);
  }

  lemma {:induction false} FirstLineSplitLines(t: string, k: nat)
    requires k == LineLength(t) && k < |t|
    ensures SplitLines(t) == [t[..k]] + SplitLines(t[k + 1..])
  {
    var rest := t[k + 1..];
    assert SplitLines(t) == if k == |t| then [t] else [t[..k]] + SplitLines(rest);
  }

  lemma {:induction false} FirstLineRustLines(t: string, k: nat)
    requires k == LineLength(t) && k < |t|
    ensures RustLines(t) == [StripCarriageReturn(t[..k])] + RustLines(t[k + 1..])
  {
  }

  lemma {:induction false} FirstLineConcat(t: string, k: nat)
    requires k == LineLength(t) && k < |t|
    ensures t == t[..k] + "\n" + t[k + 1..]
  {
    SplitAt(t, k);
    assert [t[k]] == "\n";
  }

  lemma {:induction false} SplitAt(t: string, k: nat)
    requires k < |t|
    ensures t == t[..k] + [t[k]] + t[k + 1..]
  {
  }

  /** A newline-terminated text is rebuilt from its lines. */
  lemma {:induction false} UnlinesSplitLines(t: string)
    requires t == [] || t[|t| - 1] == '\n'
    ensures Unlines(SplitLines(t)) == t
    decreases |t|
  {
    if t != [] {
      var k := LineLength(t);
      assert k < |t|;
      var rest := t[k + 1..];
      FirstLineSplit(t, k);
      assert rest == [] || rest[|rest| - 1] == '\n';
      UnlinesSplitLines(rest);
      var ls := [t[..k]] + SplitLines(rest);
      assert ls[0] == t[..k] && ls[1..] == SplitLines(rest);
      assert Unlines(ls) == t[..k] + "\n" + Unlines(SplitLines(rest));
    }
  }

  lemma {:induction false} LineLengthOfLine(l: string, rest: string)
    requires '\n' !in l
    ensures LineLength(l + "\n" + rest) == |l|
    decreases |l|
  {
    if l != [] {
      assert (l + "\n" + rest)[1..] == l[1..] + "\n" + rest;
      LineLengthOfLine(l[1..], rest);
    }
  }

  /** Lines without '\n' are recovered from their concatenation. */
  lemma {:induction false} SplitLinesUnlines(ls: seq<string>)
    requires forall k :: 0 <= k < |ls| ==> '\n' !in ls[k]
    ensures SplitLines(Unlines(ls)) == ls
  {
    if ls != [] {
      var t := Unlines(ls);
      assert t == ls[0] + "\n" + Unlines(ls[1..]);
      LineLengthOfLine(ls[0], Unlines(ls[1..]));
      assert t[..|ls[0]|] == ls[0];
      assert t[|ls[0]| + 1..] == Unlines(ls[1..]);
      SplitLinesUnlines(ls[1..]);
    }
  }

  /** The line with its trailing '\r' removed, as `str::lines` does for "\r\n" endings. */
  function StripCarriageReturn(l: string): string
  {
    if l != [] && l[|l| - 1] == '\r' then l[..|l| - 1] else l
  }

  /**
   * Rust's `str::lines`: pieces split at '\n'; a piece ended by "\r\n" loses the
   * '\r'; the last line ending is optional and the empty string has no lines.
   */
  function RustLines(s: string): (ls: seq<string>)
    ensures forall k :: 0 <= k < |ls| ==> '\n' !in ls[k]
    decreases |s|
  {
    if s == [] then []
    else
      var k := LineLength(s);
      if k == |s| then [s] else [StripCarriageReturn(s[..k])] + RustLines(s[k + 1..])
  }

  /** The lines joined by '\n', with no terminator after the last one. */
  function JoinLines(ls: seq<string>): string {
    if ls == [] then []
    else if |ls| == 1 then ls[0]
    else ls[0] + "\n" + JoinLines(ls[1..])
  }

  /**
   * Without carriage returns and without a final '\n', `RustLines` cuts the text into
   * pieces that join back into it: one output line per line of the text. A body read
   * from a file with "\r\n" line ends keeps inner '\r's, which `RustLines` drops, so
   * this does not cover it.
   */
  lemma {:induction false} JoinRustLines(s: string)
    requires '\r' !in s
    requires s == [] || s[|s| - 1] != '\n'
    ensures JoinLines(RustLines(s)) == s
    decreases |s|
  {
    if s != [] && LineLength(s) < |s| {
      var k := LineLength(s);
      var line, rest := s[..k], s[k + 1..];
      FirstLineRustLines(s, k);
      FirstLineConcat(s, k);
      NoCarriageReturnAround(s, k);
      JoinRustLines(rest);
      JoinRustLinesStep(s, line, rest);
    }
  }

  lemma {:induction false} JoinRustLinesStep(s: string, line: string, rest: string)
    requires s == line + "\n" + rest
    requires RustLines(s) == [line] + RustLines(rest) && RustLines(rest) != []
    requires JoinLines(RustLines(rest)) == rest
    ensures JoinLines(RustLines(s)) == s
  {
    JoinLinesCons(line, RustLines(rest));
  }

  /** Around a '\n' that is not the last character, a text without '\r' splits into two such texts. */
  lemma {:induction false} NoCarriageReturnAround(s: string, k: nat)
    requires '\r' !in s && k < |s| - 1
    ensures '\r' !in s[..k] && '\r' !in s[k + 1..]
    ensures StripCarriageReturn(s[..k]) == s[..k]
    ensures s[k + 1..] != [] && s[k + 1..][|s[k + 1..]| - 1] == s[|s| - 1]
    ensures RustLines(s[k + 1..]) != []
  {
    var line, rest := s[..k], s[k + 1..];
    forall i | 0 <= i < |line|
      ensures line[i] != '\r'
    {
      assert line[i] == s[i];
    }
    forall i | 0 <= i < |rest|
      ensures rest[i] != '\r'
    {
      assert rest[i] == s[k + 1 + i];
    }
  }

  lemma {:induction false} JoinLinesCons(line: string, ls: seq<string>)
    requires ls != []
    ensures JoinLines([line] + ls) == line + "\n" + JoinLines(ls)
  {
    var all := [line] + ls;
    assert all[0] == line && all[1..] == ls;
  }


  /** The leading-space count is fixed by the first three properties `LeadingSpaces` ensures. */
  lemma {:induction false} LeadingSpacesIs(s: string, n: nat)
    requires n <= |s|
    requires forall i :: 0 <= i < n ==> s[i] == ' '
    requires n < |s| ==> s[n] != ' '
    ensures LeadingSpaces(s) == n
  {
  }

  /** A prefix that ends before a non-space, or is everything, keeps the leading-space count. */
  lemma {:induction false} LeadingSpacesOfPrefix(s: string, p: string)
    requires p <= s
    requires |p| == |s| || s[|p|] != ' '
    ensures LeadingSpaces(p) == LeadingSpaces(s)
  {
    var n := LeadingSpaces(s);
    assert n <= |p|;
    assert forall i :: 0 <= i < n ==> p[i] == s[i];
    LeadingSpacesIs(p, n);
  }

  /** The leading spaces of a text are those of its first line. */
  lemma {:induction false} LeadingSpacesOfFirstLine(s: string)
    requires s != []
    ensures LeadingSpaces(s) == LeadingSpaces(RustLines(s)[0])
  {
    var k := LineLength(s);
    if k == |s| {
      assert RustLines(s)[0] == s;
    } else {
      FirstLineSplit(s, k);
      var line := s[..k];
      var first := StripCarriageReturn(line);
      assert RustLines(s)[0] == first;
      if first == line {
        assert s[|first|] == '\n';
      } else {
        assert |first| == k - 1 && s[k - 1] == '\r';
      }
      assert first <= s;
      LeadingSpacesOfPrefix(s, first);
    }
  }
}
