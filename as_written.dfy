/**
 * The two regular expressions of `parse` as the program writes them, character by
 * character:
 *
 *   comment   = #.*\n | *\n
 *   script_re = (?:comment)*([^# ].*\n)((?: .*\n|\n)*)
 *   file_re   = ^(script_re)*(comment)*$
 *
 * `.` matches any character but '\n'; the class `[^# ]` matches every other
 * character, '\n' included. `file_re.is_match` decides acceptance; the scripts come
 * from `script_re.captures_iter`, an unanchored search that reports, from where the
 * previous match ended, the leftmost match and among those the one the
 * leftmost-first (backtracking) order prefers.
 */
module AsWritten {
  import opened Text
  import opened Scripts
  import Scriptfile

  /** `.*\n` from `i`: the position just after the first '\n' at or after `i`. */
  function PastNewline(t: string, i: nat): (r: Option<nat>)
    ensures r.Some? ==> i < r.value <= |t| && t[r.value - 1] == '\n'
    ensures r.Some? ==> forall j :: i <= j < r.value - 1 ==> t[j] != '\n'
    ensures r.None? ==> forall j :: i <= j < |t| ==> t[j] != '\n'
    decreases |t| - i
  {
    if i >= |t| then None
    else if t[i] == '\n' then Some(i + 1)
    else PastNewline(t, i + 1)
  }

  /** ` *\n` from `i`. */
  function PastSpacesNewline(t: string, i: nat): (r: Option<nat>)
    ensures r.Some? ==> i < r.value <= |t| && t[r.value - 1] == '\n'
    ensures r.Some? ==> forall j :: i <= j < r.value - 1 ==> t[j] == ' '
    decreases |t| - i
  {
    if i >= |t| then None
    else if t[i] == '\n' then Some(i + 1)
    else if t[i] == ' ' then PastSpacesNewline(t, i + 1)
    else None
  }

  /** `#.*\n| *\n` from `i`. */
  function CommentAt(t: string, i: nat): (r: Option<nat>)
    ensures r.Some? ==> i < r.value <= |t| && t[r.value - 1] == '\n'
  {
    if i < |t| && t[i] == '#' then PastNewline(t, i + 1) else PastSpacesNewline(t, i)
  }

  /** `[^# ].*\n` from `i`; the first character may be '\n' itself. */
  function HeaderAt(t: string, i: nat): (r: Option<nat>)
    ensures r.Some? ==> i < r.value <= |t| && t[r.value - 1] == '\n'
  {
    if i < |t| && t[i] != '#' && t[i] != ' ' then PastNewline(t, i + 1) else None
  }

  /** ` .*\n|\n` from `i`. */
  function BodyLineAt(t: string, i: nat): (r: Option<nat>)
    ensures r.Some? ==> i < r.value <= |t| && t[r.value - 1] == '\n'
  {
    if i < |t| && t[i] == ' ' then PastNewline(t, i + 1)
    else if i < |t| && t[i] == '\n' then Some(i + 1)
    else None
  }

  /**
   * A header line is one character that is neither '#' nor ' ' (possibly '\n'), then
   * everything up to and including the next '\n'; there is none when the character
   * is missing, is '#' or ' ', or no '\n' follows it.
   */
  lemma {:induction false} HeaderAtShape(t: string, i: nat)
    ensures HeaderAt(t, i).Some? ==>
      && t[i] != '#' && t[i] != ' '
      && forall j :: i < j < HeaderAt(t, i).value - 1 ==> t[j] != '\n'
    ensures HeaderAt(t, i).None? <==>
      || i >= |t| || t[i] == '#' || t[i] == ' '
      || forall j :: i < j < |t| ==> t[j] != '\n'
  {
    if i < |t| && t[i] != '#' && t[i] != ' ' {
      var r := PastNewline(t, i + 1);
      if r.Some? {
        assert t[r.value - 1] == '\n';
      }
    }
  }

  /**
   * A comment line is '#' and the rest of the line, or spaces and a '\n'; after a '#'
   * there is none exactly when no '\n' follows.
   */
  lemma {:induction false} CommentAtShape(t: string, i: nat)
    ensures CommentAt(t, i).Some? ==>
      || (t[i] == '#' && forall j :: i < j < CommentAt(t, i).value - 1 ==> t[j] != '\n')
      || (t[i] != '#' && forall j :: i <= j < CommentAt(t, i).value - 1 ==> t[j] == ' ')
    ensures i < |t| && t[i] == '#' ==>
      (CommentAt(t, i).None? <==> forall j :: i < j < |t| ==> t[j] != '\n')
  {
    if i < |t| && t[i] == '#' {
      var r := PastNewline(t, i + 1);
      if r.Some? {
        assert t[r.value - 1] == '\n';
      }
    }
  }

  /**
   * A body line is a lone '\n', or ' ' and the rest of the line; there is none when
   * the line starts with anything else or no '\n' follows the ' '.
   */
  lemma {:induction false} BodyLineAtShape(t: string, i: nat)
    ensures BodyLineAt(t, i).Some? ==>
      || (t[i] == '\n' && BodyLineAt(t, i).value == i + 1)
      || (t[i] == ' ' && forall j :: i < j < BodyLineAt(t, i).value - 1 ==> t[j] != '\n')
    ensures BodyLineAt(t, i).None? <==>
      || i >= |t| || (t[i] != ' ' && t[i] != '\n')
      || (t[i] == ' ' && forall j :: i < j < |t| ==> t[j] != '\n')
  {
    if i < |t| && t[i] == ' ' {
      var r := PastNewline(t, i + 1);
      if r.Some? {
        assert t[r.value - 1] == '\n';
      }
    }
  }

  /** `(?: .*\n|\n)*` from `i`, greedy: the end of the longest run of body lines. */
  function BodyEnd(t: string, i: nat): (e: nat)
    requires i <= |t|
    ensures i <= e <= |t|
    ensures BodyLineAt(t, e).None?
    decreases |t| - i
  {
    match BodyLineAt(t, i)
    case Some(j) => BodyEnd(t, j)
    case None => i
  }

  /** The text from `i` on, read at stage `st`, completes `(script_re)*(comment)*$`. */
  predicate MatchesFrom(t: string, i: nat, st: Scriptfile.Stage)
    requires i <= |t|
    ensures MatchesFrom(t, i, st) && i < |t| ==> t[|t| - 1] == '\n'
    decreases |t| - i
  {
    if i == |t| then true
    else
      || (CommentAt(t, i).Some? && MatchesFrom(t, CommentAt(t, i).value, Scriptfile.BeforeHeader))
      || (HeaderAt(t, i).Some? && MatchesFrom(t, HeaderAt(t, i).value, Scriptfile.InBody))
      || (st == Scriptfile.InBody && BodyLineAt(t, i).Some? && MatchesFrom(t, BodyLineAt(t, i).value, Scriptfile.InBody))
  }

  /** `scriptfile_re.is_match(scriptfile)`: only an empty or newline-terminated text matches. */
  predicate IsMatch(t: string)
    ensures IsMatch(t) ==> t == [] || t[|t| - 1] == '\n'
  {
    MatchesFrom(t, 0, Scriptfile.BeforeHeader)
  }

  /** One match of `script_re`: group 1 is `t[header..bodyStart]`, group 2 `t[bodyStart..end]`. */
  datatype Capture = Capture(header: nat, bodyStart: nat, end: nat)

  predicate WithinFrom(t: string, p: nat, c: Capture) {
    p <= c.header < c.bodyStart <= c.end <= |t|
  }

  /**
   * The match of `script_re` that starts exactly at `i`, in leftmost-first order:
   * the greedy `(?:comment)*` first tries to take one more comment, and only when no
   * match follows that does it stop and try the header here.
   */
  function ScriptAt(t: string, i: nat): (c: Option<Capture>)
    requires i <= |t|
    ensures c.Some? ==> WithinFrom(t, i, c.value)
    decreases |t| - i
  {
    var longer := match CommentAt(t, i)
      case Some(j) => ScriptAt(t, j)
      case None => None;
    if longer.Some? then longer
    else
      match HeaderAt(t, i)
      case Some(h) => Some(Capture(i, h, BodyEnd(t, h)))
      case None => None
  }

  /**
   * The leftmost match of `script_re` that starts at or after `p` (`SearchFromLeftmost`
   * and `SearchFromNone` say which).
   */
  function SearchFrom(t: string, p: nat): (c: Option<Capture>)
    requires p <= |t|
    ensures c.Some? ==> WithinFrom(t, p, c.value)
    decreases |t| - p
  {
    var here := ScriptAt(t, p);
    if here.Some? || p == |t| then here
    else
      SearchFrom(t, p + 1)
  }

  /** A match found from `p` is the match at a start `q` before which no start has one. */
  lemma {:induction false} SearchFromLeftmost(t: string, p: nat) returns (q: nat)
    requires p <= |t| && SearchFrom(t, p).Some?
    ensures p <= q <= |t| && ScriptAt(t, q) == SearchFrom(t, p)
    ensures forall q' :: p <= q' < q ==> ScriptAt(t, q').None?
    decreases |t| - p
  {
    if ScriptAt(t, p).Some? {
      q := p;
    } else {
      assert p < |t| && SearchFrom(t, p) == SearchFrom(t, p + 1);
      q := SearchFromLeftmost(t, p + 1);
    }
  }

  /** The search finds nothing exactly when no start from `p` on has a match. */
  lemma {:induction false} SearchFromNone(t: string, p: nat)
    requires p <= |t|
    ensures SearchFrom(t, p).None? <==> forall q :: p <= q <= |t| ==> ScriptAt(t, q).None?
    decreases |t| - p
  {
    if SearchFrom(t, p).Some? {
      var q := SearchFromLeftmost(t, p);
      assert ScriptAt(t, q).Some?;
    } else if p < |t| {
      assert ScriptAt(t, p).None? && SearchFrom(t, p + 1).None?;
      SearchFromNone(t, p + 1);
    }
  }

  /** `script_re.captures_iter(t)` from `p`: each search resumes where the last match ended. */
  function CapturesFrom(t: string, p: nat): (cs: seq<Capture>)
    requires p <= |t|
    ensures forall k :: 0 <= k < |cs| ==> WithinFrom(t, p, cs[k])
    decreases |t| - p
  {
    match SearchFrom(t, p)
    case None => []
    case Some(c) => [c] + CapturesFrom(t, c.end)
  }

  /** `.map(|c| Script::from(&c)).collect()`. */
  function ScriptsOf(t: string, cs: seq<Capture>): (r: Result<seq<Script>, ParseError>)
    requires forall k :: 0 <= k < |cs| ==> WithinFrom(t, 0, cs[k])
    ensures r.Ok? ==> |r.value| == |cs|
    ensures r.Err? ==> r.error == MissingName
  {
    if cs == [] then Ok([])
    else
      assert WithinFrom(t, 0, cs[0]);
      var s :- ScriptOf(t[cs[0].header..cs[0].bodyStart], t[cs[0].bodyStart..cs[0].end]);
      var rest :- ScriptsOf(t, cs[1..]);
      Ok([s] + rest)
  }

  /** `parse` as written. */
  function Parse(t: string): (r: Result<seq<Script>, ParseError>)
    ensures r == Err(Malformed) <==> !IsMatch(t)
  {
    if !IsMatch(t) then Err(Malformed) else ScriptsOf(t, CapturesFrom(t, 0))
  }

  lemma {:induction false} PastNewlineAt(t: string, j: nat, e: nat)
    requires j <= e < |t| && t[e] == '\n'
    requires forall m :: j <= m < e ==> t[m] != '\n'
    ensures PastNewline(t, j) == Some(e + 1)
  {
  }

  lemma {:induction false} PastSpacesNewlineAt(t: string, j: nat, e: nat)
    requires j <= e < |t| && t[e] == '\n'
    requires forall m :: j <= m < e ==> t[m] == ' '
    ensures PastSpacesNewline(t, j) == Some(e + 1)
    decreases e - j
  {
    if j < e {
      PastSpacesNewlineAt(t, j + 1, e);
    }
  }

  /** The first line of `t[i..]` is `t[i..e]`, ended by the '\n' at `e`. */
  lemma {:induction false} FirstLine(t: string, i: nat) returns (e: nat)
    requires i < |t| && t[|t| - 1] == '\n'
    ensures i <= e < |t| && t[e] == '\n'
    ensures forall m :: i <= m < e ==> t[m] != '\n'
    ensures SplitLines(t[i..]) == [t[i..e]] + SplitLines(t[e + 1..])
  {
    var k := LineLength(t[i..]);
    LineInSuffix(t, i, k);
    e := i + k;
    SplitLinesOfSuffix(t, i, k);
  }

  lemma {:induction false} LineInSuffix(t: string, i: nat, k: nat)
    requires i < |t| && t[|t| - 1] == '\n' && k == LineLength(t[i..])
    ensures i + k < |t| && t[i + k] == '\n'
    ensures forall m :: i <= m < i + k ==> t[m] != '\n'
  {
    var u := t[i..];
    assert u[|u| - 1] == '\n';
    assert u[k] == t[i + k];
    forall m | i <= m < i + k
      ensures t[m] != '\n'
    {
      assert t[m] == u[m - i];
    }
  }

  lemma {:induction false} SplitLinesOfSuffix(t: string, i: nat, k: nat)
    requires i + k < |t| && k == LineLength(t[i..])
    ensures SplitLines(t[i..]) == [t[i..i + k]] + SplitLines(t[i + k + 1..])
  {
    SuffixSlices(t, i, k);
    FirstLineSplitLines(t[i..], k);
  }

  lemma {:induction false} SuffixSlices(t: string, i: nat, k: nat)
    requires i + k < |t|
    ensures t[i..][..k] == t[i..i + k]
    ensures t[i..][k + 1..] == t[i + k + 1..]
    ensures t[i..][k] == t[i + k]
  {
  }


  lemma {:induction false} CommentLineToken(t: string, i: nat, e: nat)
    requires i <= e < |t| && t[e] == '\n'
    requires forall m :: i <= m < e ==> t[m] != '\n'
    requires Scriptfile.IsComment(t[i..e])
    ensures CommentAt(t, i) == Some(e + 1)
  {
    var line := t[i..e];
    if line != [] && line[0] == '#' {
      assert t[i] == '#';
      PastNewlineAt(t, i + 1, e);
    } else {
      assert forall m :: i <= m < e ==> t[m] == ' ' by {
        forall m | i <= m < e ensures t[m] == ' ' { assert t[m] == line[m - i]; }
      }
      PastSpacesNewlineAt(t, i, e);
    }
  }

  lemma {:induction false} HeaderLineToken(t: string, i: nat, e: nat)
    requires i <= e < |t| && t[e] == '\n'
    requires forall m :: i <= m < e ==> t[m] != '\n'
    requires Scriptfile.IsHeader(t[i..e])
    ensures HeaderAt(t, i) == Some(e + 1)
  {
    assert t[i..e][0] == t[i];
    PastNewlineAt(t, i + 1, e);
  }

  lemma {:induction false} BodyLineToken(t: string, i: nat, e: nat)
    requires i <= e < |t| && t[e] == '\n'
    requires forall m :: i <= m < e ==> t[m] != '\n'
    requires Scriptfile.IsBody(t[i..e])
    ensures BodyLineAt(t, i) == Some(e + 1)
  {
    if i < e {
      assert t[i..e][0] == t[i];
      PastNewlineAt(t, i + 1, e);
    }
  }

  /** A comment at `i`, then a match of the rest, is a match from `i`. */
  lemma {:induction false} CommentStep(t: string, i: nat, st: Scriptfile.Stage, next: nat)
    requires i < next <= |t| && CommentAt(t, i) == Some(next)
    requires MatchesFrom(t, next, Scriptfile.BeforeHeader)
    ensures MatchesFrom(t, i, st)
  {
  }

  /** A header at `i`, then a match of the rest, is a match from `i`. */
  lemma {:induction false} HeaderStep(t: string, i: nat, st: Scriptfile.Stage, next: nat)
    requires i < next <= |t| && HeaderAt(t, i) == Some(next)
    requires MatchesFrom(t, next, Scriptfile.InBody)
    ensures MatchesFrom(t, i, st)
  {
  }

  /** A body line at `i` after a header, then a match of the rest, is a match from `i`. */
  lemma {:induction false} BodyStep(t: string, i: nat, next: nat)
    requires i < next <= |t| && BodyLineAt(t, i) == Some(next)
    requires MatchesFrom(t, next, Scriptfile.InBody)
    ensures MatchesFrom(t, i, Scriptfile.InBody)
  {
  }

  /**
   * From a line start, the line grammar's acceptance implies the program's: the
   * corrected recogniser accepts no text that the program rejects.
   */
  lemma {:induction false} LinesAcceptedMatchFrom(t: string, i: nat, st: Scriptfile.Stage)
    requires i <= |t| && (t == [] || t[|t| - 1] == '\n')
    requires Scriptfile.Accepts(SplitLines(t[i..]), st)
    ensures MatchesFrom(t, i, st)
    decreases |t| - i, 2
  {
    if i < |t| {
      var e := FirstLine(t, i);
      LineThenRestMatch(t, i, e, st);
    }
  }

  /** The first line `t[i..e]` and the lines after it are accepted, so the text matches from `i`. */
  lemma {:induction false} LineThenRestMatch(t: string, i: nat, e: nat, st: Scriptfile.Stage)
    requires i <= e < |t| && t[e] == '\n' && t[|t| - 1] == '\n'
    requires forall m :: i <= m < e ==> t[m] != '\n'
    requires Scriptfile.Accepts([t[i..e]] + SplitLines(t[e + 1..]), st)
    ensures MatchesFrom(t, i, st)
    decreases |t| - i, 1
  {
    var rest := SplitLines(t[e + 1..]);
    Scriptfile.AcceptsCons(t[i..e], rest, st);
    if Scriptfile.IsComment(t[i..e]) && Scriptfile.Accepts(rest, Scriptfile.BeforeHeader) {
      CommentLineToken(t, i, e);
      CommentLineMatch(t, i, e + 1, st);
    } else if Scriptfile.IsHeader(t[i..e]) && Scriptfile.Accepts(rest, Scriptfile.InBody) {
      HeaderLineToken(t, i, e);
      HeaderLineMatch(t, i, e + 1, st);
    } else {
      BodyLineToken(t, i, e);
      BodyLineMatch(t, i, e + 1);
    }
  }

  lemma {:induction false} CommentLineMatch(t: string, i: nat, next: nat, st: Scriptfile.Stage)
    requires i < next <= |t| && t[|t| - 1] == '\n' && CommentAt(t, i) == Some(next)
    requires Scriptfile.Accepts(SplitLines(t[next..]), Scriptfile.BeforeHeader)
    ensures MatchesFrom(t, i, st)
    decreases |t| - i, 0
  {
    LinesAcceptedMatchFrom(t, next, Scriptfile.BeforeHeader);
    CommentStep(t, i, st, next);
  }

  lemma {:induction false} HeaderLineMatch(t: string, i: nat, next: nat, st: Scriptfile.Stage)
    requires i < next <= |t| && t[|t| - 1] == '\n' && HeaderAt(t, i) == Some(next)
    requires Scriptfile.Accepts(SplitLines(t[next..]), Scriptfile.InBody)
    ensures MatchesFrom(t, i, st)
    decreases |t| - i, 0
  {
    LinesAcceptedMatchFrom(t, next, Scriptfile.InBody);
    HeaderStep(t, i, st, next);
  }

  lemma {:induction false} BodyLineMatch(t: string, i: nat, next: nat)
    requires i < next <= |t| && t[|t| - 1] == '\n' && BodyLineAt(t, i) == Some(next)
    requires Scriptfile.Accepts(SplitLines(t[next..]), Scriptfile.InBody)
    ensures MatchesFrom(t, i, Scriptfile.InBody)
    decreases |t| - i, 0
  {
    LinesAcceptedMatchFrom(t, next, Scriptfile.InBody);
    BodyStep(t, i, next);
  }

  /** The corrected grammar only narrows what the program accepts. */
  lemma {:induction false} MatchesImpliesIsMatch(t: string)
    requires Scriptfile.Matches(t)
    ensures IsMatch(t)
  {
    assert t[0..] == t;
    LinesAcceptedMatchFrom(t, 0, Scriptfile.BeforeHeader);
  }

  // ---- Where the program departs from its grammar ----

  /**
   * Because `[^# ]` also matches '\n', an empty line followed by any line is a header:
   * an indented line that directly follows an empty line, before the first header, is
   * accepted and names a script. The line grammar rejects the same text.
   */
  lemma {:induction false} NewlineStartsHeader()
    ensures Parse("\n x\n") == Ok([Script("x", [], "")])
    ensures Scriptfile.Parse("\n x\n") == Err(Malformed)
  {
    var t := "\n x\n";
    assert HeaderAt(t, 0) == Some(4);
    assert MatchesFrom(t, 4, Scriptfile.InBody);
    assert IsMatch(t);
    NewlineHeaderCaptures();
    NewlineHeaderScripts();
    NewlineHeaderLines();
  }

  lemma {:induction false} NewlineHeaderCaptures()
    ensures CapturesFrom("\n x\n", 0) == [Capture(0, 4, 4)]
  {
    var t := "\n x\n";
    assert HeaderAt(t, 0) == Some(4);
    assert CommentAt(t, 0) == Some(1);
    assert CommentAt(t, 1) == None && HeaderAt(t, 1) == None;
    assert ScriptAt(t, 1) == None;
    assert BodyEnd(t, 4) == 4;
    assert ScriptAt(t, 0) == Some(Capture(0, 4, 4));
    assert SearchFrom(t, 4) == None;
  }

  lemma {:induction false} NewlineHeaderScripts()
    ensures ScriptsOf("\n x\n", [Capture(0, 4, 4)]) == Ok([Script("x", [], "")])
  {
    var t := "\n x\n";
    assert t[0..4] == t && t[4..4] == [];
    assert Words("\n") == [];
    assert WordLength("x\n") == 1;
    assert "x\n"[..1] == "x" && "x\n"[1..] == "\n";
    assert Words("x\n") == ["x"];
    assert Words(" x\n") == ["x"];
    assert Words(t) == ["x"];
    assert TrimEnd([]) == [];
    assert ScriptOf(t[0..4], t[4..4]) == Ok(Script("x", [], ""));
    assert [Capture(0, 4, 4)][1..] == [];
    assert ScriptsOf(t, []) == Ok([]);
    assert [Script("x", [], "")] + [] == [Script("x", [], "")];
  }

  lemma {:induction false} NewlineHeaderLines()
    ensures Scriptfile.Parse("\n x\n") == Err(Malformed)
  {
    var t := "\n x\n";
    assert LineLength(t) == 0;
    assert t[1..] == " x\n" && t[..0] == "";
    assert LineLength(" x\n") == 2;
    assert " x\n"[..2] == " x" && " x\n"[3..] == "";
    assert SplitLines(" x\n") == [" x"];
    assert SplitLines(t) == ["", " x"];
    Scriptfile.OrphanBodyLineRejectsFile(t, 1);
  }

  /**
   * Because the search of `captures_iter` is not anchored, a comment after the last
   * script is searched again from its second character: "#c" yields a script "c"
   * with an empty body. The line grammar yields only the script of the header line.
   */
  lemma {:induction false} TrailingCommentBecomesScript()
    ensures Parse("h\n#c\n") == Ok([Script("h", [], ""), Script("c", [], "")])
    ensures Scriptfile.Parse("h\n#c\n") == Ok([Script("h", [], "")])
  {
    var t := "h\n#c\n";
    assert HeaderAt(t, 0) == Some(2);
    assert CommentAt(t, 2) == Some(5);
    assert MatchesFrom(t, 2, Scriptfile.InBody);
    assert IsMatch(t);
    TrailingCommentCaptures();
    TrailingCommentScripts();
    TrailingCommentLines();
  }

  lemma {:induction false} TrailingCommentCaptures()
    ensures CapturesFrom("h\n#c\n", 0) == [Capture(0, 2, 2), Capture(3, 5, 5)]
  {
    var t := "h\n#c\n";
    assert CommentAt(t, 0) == None;
    assert BodyEnd(t, 2) == 2;
    assert ScriptAt(t, 0) == Some(Capture(0, 2, 2));
    assert ScriptAt(t, 5) == None;
    assert HeaderAt(t, 2) == None;
    assert ScriptAt(t, 2) == None;
    assert CommentAt(t, 3) == None;
    assert HeaderAt(t, 3) == Some(5);
    assert ScriptAt(t, 3) == Some(Capture(3, 5, 5));
    assert SearchFrom(t, 2) == Some(Capture(3, 5, 5));
    assert SearchFrom(t, 5) == None;
    assert CapturesFrom(t, 5) == [];
    assert CapturesFrom(t, 2) == [Capture(3, 5, 5)];
  }

  /** The same holds without any script before the comment: the file has no header line. */
  lemma {:induction false} CommentOnlyFileCaptures()
    ensures CapturesFrom("#c\n", 0) == [Capture(1, 3, 3)]
  {
    var t := "#c\n";
    assert HeaderAt(t, 0) == None;
    assert CommentAt(t, 0) == Some(3);
    assert ScriptAt(t, 3) == None;
    assert ScriptAt(t, 0) == None;
    assert CommentAt(t, 1) == None;
    assert HeaderAt(t, 1) == Some(3);
    assert ScriptAt(t, 1) == Some(Capture(1, 3, 3));
    assert SearchFrom(t, 0) == Some(Capture(1, 3, 3));
    assert SearchFrom(t, 3) == None;
    assert CapturesFrom(t, 3) == [];
  }

  lemma {:induction false} TrailingCommentScripts()
    ensures ScriptsOf("h\n#c\n", [Capture(0, 2, 2), Capture(3, 5, 5)])
      == Ok([Script("h", [], ""), Script("c", [], "")])
  {
    var t := "h\n#c\n";
    TrailingCommentSlices();
    ScriptOfWordLine("h");
    ScriptOfWordLine("c");
    ScriptsOfTwo(t, Capture(0, 2, 2), Capture(3, 5, 5), Script("h", [], ""), Script("c", [], ""));
  }

  lemma {:induction false} TrailingCommentSlices()
    ensures "h\n#c\n"[0..2] == "h" + "\n" && "h\n#c\n"[2..2] == []
    ensures "h\n#c\n"[3..5] == "c" + "\n" && "h\n#c\n"[5..5] == []
  {
    var t := "h\n#c\n";
    assert t[0] == 'h' && t[1] == '\n' && t[3] == 'c' && t[4] == '\n';
    assert t[0..2] == [t[0], t[1]];
    assert t[3..5] == [t[3], t[4]];
  }

  /** A header line holding one word, with an empty body, is a script without parameters. */
  lemma {:induction false} ScriptOfWordLine(w: string)
    requires IsWord(w)
    ensures ScriptOf(w + "\n", []) == Ok(Script(w, [], ""))
  {
    WordsOfLine(w);
  }

  /** Two matches that each yield a script yield those two scripts, in order. */
  lemma {:induction false} ScriptsOfTwo(t: string, c0: Capture, c1: Capture, s0: Script, s1: Script)
    requires WithinFrom(t, 0, c0) && WithinFrom(t, 0, c1)
    requires ScriptOf(t[c0.header..c0.bodyStart], t[c0.bodyStart..c0.end]) == Ok(s0)
    requires ScriptOf(t[c1.header..c1.bodyStart], t[c1.bodyStart..c1.end]) == Ok(s1)
    ensures ScriptsOf(t, [c0, c1]) == Ok([s0, s1])
  {
    var cs := [c0, c1];
    assert cs[0] == c0 && cs[1..] == [c1];
    var one := [c1];
    assert one[0] == c1 && one[1..] == [];
    assert ScriptsOf(t, []) == Ok([]);
    assert ScriptsOf(t, one) == Ok([s1] + []);
    assert [s1] + [] == [s1] && [s0] + [s1] == [s0, s1];
  }

  lemma {:induction false} TrailingCommentLines()
    ensures Scriptfile.Parse("h\n#c\n") == Ok([Script("h", [], "")])
  {
    var t := "h\n#c\n";
    TrailingCommentSplit();
    TrailingCommentAccepted();
    TrailingCommentExtract();
  }

  lemma {:induction false} TrailingCommentSplit()
    ensures SplitLines("h\n#c\n") == ["h", "#c"]
  {
    var t := "h\n#c\n";
    assert t[..1] == "h" && t[2..] == "#c\n";
    assert "#c\n"[..2] == "#c" && "#c\n"[3..] == [];
    assert SplitLines("#c\n") == ["#c"];
  }

  lemma {:induction false} TrailingCommentAccepted()
    ensures Scriptfile.Accepts(["h", "#c"], Scriptfile.BeforeHeader)
  {
    var ls := ["h", "#c"];
    assert ls[1..] == ["#c"] && ls[1..][1..] == [];
    assert Scriptfile.Accepts(ls[1..], Scriptfile.InBody);
  }

  lemma {:induction false} TrailingCommentExtract()
    ensures Scriptfile.Extract(["h", "#c"]) == Ok([Script("h", [], "")])
  {
    var ls := ["h", "#c"];
    assert ls[1..] == ["#c"];
    assert Scriptfile.BodyRun(ls[1..]) == 0;
    assert ls[1..1] == [];
    assert Unlines([]) == [] && TrimEnd([]) == [];
    assert "h"[..1] == "h" && "h"[1..] == [];
    assert Words("h") == ["h"];
    assert ScriptOf("h", Unlines([])) == Ok(Script("h", [], ""));
    assert Scriptfile.Extract(["#c"]) == Ok([]);
    assert [Script("h", [], "")] + [] == [Script("h", [], "")];
  }

  /**
   * A text of blank lines: the greedy `(?:comment)*` cannot be followed by a header,
   * so the leftmost-first order falls back to no comment at all, and `[^# ]` takes
   * the first '\n' as the start of a header line "\n\n". That header has no word, so
   * `Script::from` fails (the program panics on `unwrap`). The line grammar reads two
   * blank comment lines and yields no script.
   */
  lemma {:induction false} BlankLinesHaveNoName()
    ensures Parse("\n\n") == Err(MissingName)
    ensures Scriptfile.Parse("\n\n") == Ok([])
  {
    var t := "\n\n";
    assert CommentAt(t, 0) == Some(1) && CommentAt(t, 1) == Some(2);
    assert MatchesFrom(t, 1, Scriptfile.BeforeHeader);
    assert IsMatch(t);
    BlankLinesCaptures();
    BlankLinesScripts();
    BlankLinesLines();
  }

  lemma {:induction false} BlankLinesCaptures()
    ensures CapturesFrom("\n\n", 0) == [Capture(0, 2, 2)]
  {
    var t := "\n\n";
    assert ScriptAt(t, 2) == None;
    assert CommentAt(t, 1) == Some(2) && HeaderAt(t, 1) == None;
    assert ScriptAt(t, 1) == None;
    assert HeaderAt(t, 0) == Some(2) && BodyEnd(t, 2) == 2;
    assert ScriptAt(t, 0) == Some(Capture(0, 2, 2));
    assert SearchFrom(t, 2) == None;
  }

  lemma {:induction false} BlankLinesScripts()
    ensures ScriptsOf("\n\n", [Capture(0, 2, 2)]) == Err(MissingName)
  {
    var t := "\n\n";
    assert t[0..2] == t;
    NoWordsIffBlank(t);
  }

  lemma {:induction false} BlankLinesLines()
    ensures Scriptfile.Parse("\n\n") == Ok([])
  {
    var t := "\n\n";
    assert t[..0] == [] && t[1..] == "\n";
    assert "\n"[..0] == [] && "\n"[1..] == [];
    assert SplitLines("\n") == [[]];
    assert SplitLines(t) == [[], []];
    var ls: seq<string> := [[], []];
    assert ls[1..] == [[]] && ls[1..][1..] == [];
    assert Scriptfile.Accepts(ls, Scriptfile.BeforeHeader);
    assert Scriptfile.Extract(ls[1..]) == Ok([]);
  }
}
