/**
 * The scriptfile grammar and the extraction of its scripts, line by line.
 *
 * A scriptfile is a sequence of '\n'-terminated lines matching
 *   (comment* header body*)* comment*
 * where a comment line starts with '#' or holds only spaces, a header line is a
 * non-empty line whose first character is neither '#' nor ' ', and a body line is
 * empty or starts with ' '. The whole file is checked before any script is
 * extracted; each header line then gives one script whose body is the run of body
 * lines after it, without trailing whitespace.
 *
 * This is the intended reading of the two regular expressions of `parse`; module
 * AsWritten models those expressions as the program writes them.
 */
module Scriptfile {
  import opened Text
  import opened Scripts

  /** `#.*\n` or ` *\n`, without the '\n'. */
  predicate IsComment(l: string) {
    (l != [] && l[0] == '#') || AllSpaces(l)
  }

  /** `[^# ].*\n` without the '\n', for a line that is not empty. */
  predicate IsHeader(l: string) {
    l != [] && l[0] != '#' && l[0] != ' '
  }

  /** ` .*\n` or `\n`, without the '\n'. */
  predicate IsBody(l: string) {
    l == [] || l[0] == ' '
  }

  /** Where the recogniser stands in `(comment* header body*)* comment*`. */
  datatype Stage =
    | BeforeHeader  // in the comments before a header or at the end of the file
    | InBody        // after a header, where body lines may follow

  /** The lines `ls`, read from stage `st`, complete the grammar. */
  predicate Accepts(ls: seq<string>, st: Stage)
    decreases |ls|
  {
    if ls == [] then true
    else
      || (IsComment(ls[0]) && Accepts(ls[1..], BeforeHeader))
      || (IsHeader(ls[0]) && Accepts(ls[1..], InBody))
      || (st == InBody && IsBody(ls[0]) && Accepts(ls[1..], InBody))
  }

  /** The three ways a non-empty list of lines can be accepted, by its first line. */
  lemma {:induction false} AcceptsCons(line: string, rest: seq<string>, st: Stage)
    requires Accepts([line] + rest, st)
    ensures
      || (IsComment(line) && Accepts(rest, BeforeHeader))
      || (IsHeader(line) && Accepts(rest, InBody))
      || (st == InBody && IsBody(line) && Accepts(rest, InBody))
  {
    var ls := [line] + rest;
    assert ls[0] == line && ls[1..] == rest;
  }

  /** The whole text matches: it is newline-terminated (or empty) and its lines follow the grammar. */
  predicate Matches(text: string) {
    (text == [] || text[|text| - 1] == '\n') && Accepts(SplitLines(text), BeforeHeader)
  }

  /** Number of body lines at the start of `ls`: the greedy `(?: .*\n|\n)*`. */
  function BodyRun(ls: seq<string>): (n: nat)
    ensures n <= |ls|
    ensures forall i :: 0 <= i < n ==> IsBody(ls[i])
    ensures n < |ls| ==> !IsBody(ls[n])
  {
    if ls == [] || !IsBody(ls[0]) then 0 else 1 + BodyRun(ls[1..])
  }

  /** The header lines of `ls`, in order. */
  function Headers(ls: seq<string>): (hs: seq<string>)
    ensures forall k :: 0 <= k < |hs| ==> IsHeader(hs[k])
  {
    if ls == [] then []
    else if IsHeader(ls[0]) then [ls[0]] + Headers(ls[1..])
    else Headers(ls[1..])
  }

  /** `ps` with `d` added to each position: positions in a suffix, seen from `d` lines earlier. */
  function Shift(ps: seq<nat>, d: nat): (qs: seq<nat>)
    ensures |qs| == |ps| && forall k :: 0 <= k < |ps| ==> qs[k] == ps[k] + d
  {
    if ps == [] then [] else [ps[0] + d] + Shift(ps[1..], d)
  }

  /** The line numbers of the header lines of `ls`, in order: position `k` holds header `k`. */
  function HeaderPositions(ls: seq<string>): (ps: seq<nat>)
    ensures |ps| == |Headers(ls)|
    ensures forall k :: 0 <= k < |ps| ==> ps[k] < |ls|
    decreases |ls|
  {
    if ls == [] then []
    else
      var tail := Shift(HeaderPositions(ls[1..]), 1);
      if IsHeader(ls[0]) then [0] + tail else tail
  }

  /** Position `k` holds header `k`. */
  lemma {:induction false} HeaderPositionsHold(ls: seq<string>)
    ensures forall k :: 0 <= k < |HeaderPositions(ls)| ==> ls[HeaderPositions(ls)[k]] == Headers(ls)[k]
  {
    forall k | 0 <= k < |HeaderPositions(ls)|
      ensures ls[HeaderPositions(ls)[k]] == Headers(ls)[k]
    {
      HeaderPositionHolds(ls, k);
    }
  }

  lemma {:induction false} HeaderPositionHolds(ls: seq<string>, k: nat)
    requires k < |HeaderPositions(ls)|
    ensures ls[HeaderPositions(ls)[k]] == Headers(ls)[k]
    decreases |ls|, 1
  {
    var inner, later := HeaderPositions(ls[1..]), Headers(ls[1..]);
    if IsHeader(ls[0]) {
      if k > 0 {
        PositionAfterHeader(ls, k);
        LaterHeaderHolds(ls, inner, later, k - 1);
      }
    } else {
      PositionAfterOther(ls, k);
      LaterHeaderHolds(ls, inner, later, k);
    }
  }

  lemma {:induction false} PositionsCount(ls: seq<string>)
    requires ls != []
    ensures |HeaderPositions(ls)| == (if IsHeader(ls[0]) then 1 else 0) + |HeaderPositions(ls[1..])|
  {
  }

  lemma {:induction false} PositionAfterHeader(ls: seq<string>, k: nat)
    requires ls != [] && IsHeader(ls[0]) && 0 < k < |HeaderPositions(ls)|
    ensures k - 1 < |HeaderPositions(ls[1..])|
    ensures HeaderPositions(ls)[k] == HeaderPositions(ls[1..])[k - 1] + 1
    ensures Headers(ls)[k] == Headers(ls[1..])[k - 1]
  {
  }

  lemma {:induction false} PositionAfterOther(ls: seq<string>, k: nat)
    requires ls != [] && !IsHeader(ls[0]) && k < |HeaderPositions(ls)|
    ensures k < |HeaderPositions(ls[1..])|
    ensures HeaderPositions(ls)[k] == HeaderPositions(ls[1..])[k] + 1
    ensures Headers(ls)[k] == Headers(ls[1..])[k]
  {
  }

  lemma {:induction false} LaterHeaderHolds(ls: seq<string>, inner: seq<nat>, later: seq<string>, j: nat)
    requires ls != [] && inner == HeaderPositions(ls[1..]) && later == Headers(ls[1..])
    requires j < |inner|
    ensures inner[j] + 1 < |ls| && ls[inner[j] + 1] == later[j]
    decreases |ls|, 0
  {
    HeaderPositionHolds(ls[1..], j);
    assert ls[1..][inner[j]] == ls[inner[j] + 1];
  }

  /** The header positions increase. */
  lemma {:induction false} HeaderPositionsIncrease(ls: seq<string>)
    ensures forall k, j :: 0 <= k < j < |HeaderPositions(ls)| ==> HeaderPositions(ls)[k] < HeaderPositions(ls)[j]
    decreases |ls|
  {
    if ls != [] {
      var inner := HeaderPositions(ls[1..]);
      HeaderPositionsIncrease(ls[1..]);
      ShiftIncreases(inner, 1);
      if IsHeader(ls[0]) {
        ConsZeroIncreases(Shift(inner, 1));
      }
    }
  }

  predicate Increasing(ps: seq<nat>) {
    forall k, j :: 0 <= k < j < |ps| ==> ps[k] < ps[j]
  }

  lemma {:induction false} ShiftIncreases(ps: seq<nat>, d: nat)
    requires Increasing(ps)
    ensures Increasing(Shift(ps, d))
  {
  }

  lemma {:induction false} ConsZeroIncreases(ps: seq<nat>)
    requires Increasing(ps) && forall k :: 0 <= k < |ps| ==> ps[k] > 0
    ensures Increasing([0] + ps)
  {
    var qs := [0] + ps;
    assert forall k :: 0 < k < |qs| ==> qs[k] == ps[k - 1];
  }

  /** Every header line is among the header positions. */
  lemma {:induction false} HeaderPositionsComplete(ls: seq<string>, p: nat)
    requires p < |ls| && IsHeader(ls[p])
    ensures p in HeaderPositions(ls)
  {
    var k := HeaderIndex(ls, p);
  }

  lemma {:induction false} HeaderIndex(ls: seq<string>, p: nat) returns (k: nat)
    requires p < |ls| && IsHeader(ls[p])
    ensures k < |HeaderPositions(ls)| && HeaderPositions(ls)[k] == p
    decreases |ls|
  {
    if p == 0 {
      k := 0;
    } else {
      assert ls[1..][p - 1] == ls[p];
      var j := HeaderIndex(ls[1..], p - 1);
      PositionsCount(ls);
      if IsHeader(ls[0]) {
        k := j + 1;
        PositionAfterHeader(ls, k);
      } else {
        k := j;
        PositionAfterOther(ls, k);
      }
    }
  }

  /** The body lines after the header at `p`: the greedy run of body lines that follows it. */
  function BodyAfter(ls: seq<string>, p: nat): seq<string>
    requires p < |ls|
  {
    ls[p + 1..p + 1 + BodyRun(ls[p + 1..])]
  }

  /** The body after line `p` is a run of body lines that ends at the text's end or a non-body line. */
  lemma {:induction false} BodyAfterIsRun(ls: seq<string>, p: nat)
    requires p < |ls|
    ensures var bl := BodyAfter(ls, p);
      && bl == ls[p + 1..p + 1 + |bl|]
      && (forall i :: 0 <= i < |bl| ==> IsBody(bl[i]))
      && (p + 1 + |bl| == |ls| || !IsBody(ls[p + 1 + |bl|]))
  {
    var n := BodyRun(ls[p + 1..]);
    var run, rest := ls[p + 1..p + 1 + n], ls[p + 1..];
    assert forall i :: 0 <= i < n ==> run[i] == rest[i];
    assert n < |ls[p + 1..]| ==> ls[p + 1..][n] == ls[p + 1 + n];
  }

  lemma {:induction false} HeadersAppend(a: seq<string>, b: seq<string>)
    ensures Headers(a + b) == Headers(a) + Headers(b)
  {
    if a == [] {
      assert a + b == b;
    } else {
      assert (a + b)[0] == a[0];
      assert (a + b)[1..] == a[1..] + b;
      HeadersAppend(a[1..], b);
    }
  }

  lemma {:induction false} NoHeadersInBody(ls: seq<string>)
    requires forall i :: 0 <= i < |ls| ==> IsBody(ls[i])
    ensures Headers(ls) == []
  {
    if ls != [] {
      NoHeadersInBody(ls[1..]);
    }
  }

  predicate AllNamed(hs: seq<string>) {
    forall k :: 0 <= k < |hs| ==> Words(hs[k]) != []
  }

  /**
   * The scripts of a matching file (`captures_iter(..).map(Script::from)`): one per
   * header line, in file order, each named by the first word of its header with the
   * other words as parameters; a header without words stops the extraction.
   */
  function Extract(ls: seq<string>): (r: Result<seq<Script>, ParseError>)
    ensures r.Ok? <==> AllNamed(Headers(ls))
    ensures r.Err? ==> r.error == MissingName
    ensures r.Ok? ==> |r.value| == |Headers(ls)|
    ensures r.Ok? ==> forall k :: 0 <= k < |r.value| ==>
      [r.value[k].name] + r.value[k].parameters == Words(Headers(ls)[k])
    ensures r.Ok? ==> forall k :: 0 <= k < |r.value| ==> NoTrailingWhitespace(r.value[k].body)
    ensures r.Ok? ==> ScriptBodies(r.value) == Trimmed(BodyBlocks(ls, HeaderPositions(ls)))
    decreases |ls|
  {
    if ls == [] then Ok([])
    else if !IsHeader(ls[0]) then
      var r := Extract(ls[1..]);
      BodiesSkip(r, ls);
      r
    else
      var n := BodyRun(ls[1..]);
      HeadersAfterBody(ls, n);
      AllNamedCons(ls[0], Headers(ls[1 + n..]));
      var s :- ScriptOf(ls[0], Unlines(ls[1..1 + n]));
      var rest :- Extract(ls[1 + n..]);
      DeclaredCons(s, rest, ls[0], Headers(ls[1 + n..]));
      BodiesCons(s, rest, ls, n);
      Ok([s] + rest)
  }

  /** The bodies of `ss`, in order. */
  function ScriptBodies(ss: seq<Script>): (bs: seq<string>)
    ensures |bs| == |ss|
  {
    if ss == [] then [] else [ss[0].body] + ScriptBodies(ss[1..])
  }

  /** The body lines after line `p`, none for a position past the end. */
  function BlockAt(ls: seq<string>, p: nat): seq<string> {
    if p < |ls| then BodyAfter(ls, p) else []
  }

  /** The body lines after each header position in `ps`, in order. */
  function BodyBlocks(ls: seq<string>, ps: seq<nat>): (bs: seq<seq<string>>)
    ensures |bs| == |ps|
  {
    if ps == [] then [] else [BlockAt(ls, ps[0])] + BodyBlocks(ls, ps[1..])
  }

  /** Each block of body lines as the text a script keeps: joined and trimmed at the end. */
  function Trimmed(bs: seq<seq<string>>): (ts: seq<string>)
    ensures |ts| == |bs|
  {
    if bs == [] then [] else [TrimEnd(Unlines(bs[0]))] + Trimmed(bs[1..])
  }

  lemma {:induction false} ScriptBodiesAt(ss: seq<Script>, k: nat)
    requires k < |ss|
    ensures ScriptBodies(ss)[k] == ss[k].body
  {
    if k > 0 {
      ScriptBodiesAt(ss[1..], k - 1);
    }
  }

  lemma {:induction false} BodyBlocksAt(ls: seq<string>, ps: seq<nat>, k: nat)
    requires k < |ps|
    ensures BodyBlocks(ls, ps)[k] == BlockAt(ls, ps[k])
  {
    if k > 0 {
      BodyBlocksAt(ls, ps[1..], k - 1);
    }
  }

  lemma {:induction false} TrimmedAt(bs: seq<seq<string>>, k: nat)
    requires k < |bs|
    ensures Trimmed(bs)[k] == TrimEnd(Unlines(bs[k]))
  {
    if k > 0 {
      TrimmedAt(bs[1..], k - 1);
    }
  }

  /** Equal body sequences give each script the trimmed body after its header position. */
  lemma {:induction false} BodiesAt(ss: seq<Script>, ls: seq<string>, ps: seq<nat>)
    requires forall k :: 0 <= k < |ps| ==> ps[k] < |ls|
    requires ScriptBodies(ss) == Trimmed(BodyBlocks(ls, ps))
    ensures forall k :: 0 <= k < |ss| ==> ss[k].body == TrimEnd(Unlines(BodyAfter(ls, ps[k])))
  {
    forall k | 0 <= k < |ss|
      ensures ss[k].body == TrimEnd(Unlines(BodyAfter(ls, ps[k])))
    {
      ScriptBodiesAt(ss, k);
      TrimmedAt(BodyBlocks(ls, ps), k);
      BodyBlocksAt(ls, ps, k);
    }
  }

  /** A line that is not a header shifts the header positions and leaves the bodies alone. */
  lemma {:induction false} BodiesSkip(r: Result<seq<Script>, ParseError>, ls: seq<string>)
    requires ls != [] && !IsHeader(ls[0])
    requires r.Ok? ==> ScriptBodies(r.value) == Trimmed(BodyBlocks(ls[1..], HeaderPositions(ls[1..])))
    ensures r.Ok? ==> ScriptBodies(r.value) == Trimmed(BodyBlocks(ls, HeaderPositions(ls)))
  {
    if r.Ok? {
      assert HeaderPositions(ls) == Shift(HeaderPositions(ls[1..]), 1);
      BodyBlocksShift(ls, 1, HeaderPositions(ls[1..]));
    }
  }

  /** Body blocks seen from `d` lines earlier. */
  lemma {:induction false} BodyBlocksShift(ls: seq<string>, d: nat, ps: seq<nat>)
    requires d <= |ls|
    ensures BodyBlocks(ls, Shift(ps, d)) == BodyBlocks(ls[d..], ps)
  {
    var qs := Shift(ps, d);
    var moved, kept := BodyBlocks(ls, qs), BodyBlocks(ls[d..], ps);
    forall k | 0 <= k < |ps|
      ensures moved[k] == kept[k]
    {
      BodyBlockShift(ls, d, ps, k);
    }
  }

  lemma {:induction false} BodyBlockShift(ls: seq<string>, d: nat, ps: seq<nat>, k: nat)
    requires d <= |ls| && k < |ps|
    ensures BodyBlocks(ls, Shift(ps, d))[k] == BodyBlocks(ls[d..], ps)[k]
  {
    var qs := Shift(ps, d);
    assert qs[k] == d + ps[k];
    BodyBlocksAt(ls, qs, k);
    BodyBlocksAt(ls[d..], ps, k);
    BlockAtShift(ls, d, ps[k]);
  }

  /** `BodyAfterShift`, extended to positions past the end. */
  lemma {:induction false} BlockAtShift(ls: seq<string>, d: nat, q: nat)
    requires d <= |ls|
    ensures BlockAt(ls, d + q) == BlockAt(ls[d..], q)
  {
    if d + q < |ls| {
      BodyAfterShift(ls, d, q);
    }
  }

  /** A header and its body lines put their body in front of the bodies of the scripts after them. */
  lemma {:induction false} BodiesCons(s: Script, ss: seq<Script>, ls: seq<string>, n: nat)
    requires ls != [] && IsHeader(ls[0]) && n == BodyRun(ls[1..])
    requires s.body == TrimEnd(Unlines(ls[1..1 + n]))
    requires ScriptBodies(ss) == Trimmed(BodyBlocks(ls[1 + n..], HeaderPositions(ls[1 + n..])))
    ensures ScriptBodies([s] + ss) == Trimmed(BodyBlocks(ls, HeaderPositions(ls)))
  {
    var later := HeaderPositions(ls[1 + n..]);
    var moved := Shift(later, 1 + n);
    calc {
      Trimmed(BodyBlocks(ls, HeaderPositions(ls)));
      == { PositionsAfterBlock(ls, n); }
      Trimmed(BodyBlocks(ls, [0] + moved));
      == { BodyBlocksCons(ls, 0, moved); FirstBlock(ls, n); BodyBlocksShift(ls, 1 + n, later); }
      Trimmed([ls[1..1 + n]] + BodyBlocks(ls[1 + n..], later));
      == { TrimmedCons(ls[1..1 + n], BodyBlocks(ls[1 + n..], later)); }
      [s.body] + ScriptBodies(ss);
      == { ScriptBodiesCons(s, ss); }
      ScriptBodies([s] + ss);
    }
  }

  lemma {:induction false} FirstBlock(ls: seq<string>, n: nat)
    requires ls != [] && n == BodyRun(ls[1..])
    ensures BlockAt(ls, 0) == ls[1..1 + n]
  {
  }

  lemma {:induction false} ScriptBodiesCons(s: Script, ss: seq<Script>)
    ensures ScriptBodies([s] + ss) == [s.body] + ScriptBodies(ss)
  {
    assert ([s] + ss)[1..] == ss;
  }

  lemma {:induction false} BodyBlocksCons(ls: seq<string>, q: nat, ps: seq<nat>)
    ensures BodyBlocks(ls, [q] + ps) == [BlockAt(ls, q)] + BodyBlocks(ls, ps)
  {
    assert ([q] + ps)[1..] == ps;
  }

  lemma {:induction false} TrimmedCons(b: seq<string>, bs: seq<seq<string>>)
    ensures Trimmed([b] + bs) == [TrimEnd(Unlines(b))] + Trimmed(bs)
  {
    assert ([b] + bs)[1..] == bs;
  }

  /** The body after a header does not depend on the lines before it. */
  lemma {:induction false} BodyAfterShift(ls: seq<string>, d: nat, q: nat)
    requires d + q < |ls|
    ensures BodyAfter(ls, d + q) == BodyAfter(ls[d..], q)
  {
    assert ls[d..][q + 1..] == ls[d + q + 1..];
  }

  /** Past a header and its body lines, the next header comes `1 + n` lines later. */
  lemma {:induction false} PositionsAfterBlock(ls: seq<string>, n: nat)
    requires ls != [] && IsHeader(ls[0]) && n == BodyRun(ls[1..])
    ensures HeaderPositions(ls) == [0] + Shift(HeaderPositions(ls[1 + n..]), 1 + n)
  {
    PositionsSkipBody(ls[1..], n);
    assert ls[1..][n..] == ls[1 + n..];
    ShiftShift(HeaderPositions(ls[1 + n..]), n, 1);
  }

  /** Lines that are not headers only shift the positions of the headers after them. */
  lemma {:induction false} PositionsSkipBody(ls: seq<string>, n: nat)
    requires n <= |ls| && forall i :: 0 <= i < n ==> !IsHeader(ls[i])
    ensures HeaderPositions(ls) == Shift(HeaderPositions(ls[n..]), n)
  {
    if n == 0 {
      assert ls[0..] == ls;
      ShiftZero(HeaderPositions(ls));
    } else {
      PrefixWithoutHeaders(ls, n);
      PositionsSkipBody(ls[1..], n - 1);
      PositionsSkipLine(ls, n);
    }
  }

  lemma {:induction false} PrefixWithoutHeaders(ls: seq<string>, n: nat)
    requires 0 < n <= |ls| && forall i :: 0 <= i < n ==> !IsHeader(ls[i])
    ensures forall i :: 0 <= i < n - 1 ==> !IsHeader(ls[1..][i])
  {
    forall i | 0 <= i < n - 1 ensures !IsHeader(ls[1..][i]) {
      assert ls[1..][i] == ls[i + 1];
    }
  }

  lemma {:induction false} PositionsSkipLine(ls: seq<string>, n: nat)
    requires 0 < n <= |ls| && !IsHeader(ls[0])
    requires HeaderPositions(ls[1..]) == Shift(HeaderPositions(ls[1..][n - 1..]), n - 1)
    ensures HeaderPositions(ls) == Shift(HeaderPositions(ls[n..]), n)
  {
    assert ls[1..][n - 1..] == ls[n..];
    var later := HeaderPositions(ls[n..]);
    assert HeaderPositions(ls) == Shift(Shift(later, n - 1), 1);
    ShiftShift(later, n - 1, 1);
  }

  lemma {:induction false} ShiftZero(ps: seq<nat>)
    ensures Shift(ps, 0) == ps
  {
    var qs := Shift(ps, 0);
    assert forall k :: 0 <= k < |ps| ==> qs[k] == ps[k];
  }

  lemma {:induction false} ShiftShift(ps: seq<nat>, a: nat, b: nat)
    ensures Shift(Shift(ps, a), b) == Shift(ps, a + b)
  {
    var x, y := Shift(Shift(ps, a), b), Shift(ps, a + b);
    assert forall k :: 0 <= k < |ps| ==> x[k] == y[k];
  }

  /** Script `k` is declared by header `k`, for each `k`: its name and parameters are the words. */
  predicate Declared(ss: seq<Script>, hs: seq<string>) {
    && |ss| == |hs|
    && (forall k :: 0 <= k < |ss| ==> [ss[k].name] + ss[k].parameters == Words(hs[k]))
    && (forall k :: 0 <= k < |ss| ==> NoTrailingWhitespace(ss[k].body))
  }

  lemma {:induction false} DeclaredCons(s: Script, ss: seq<Script>, h: string, hs: seq<string>)
    requires [s.name] + s.parameters == Words(h) && NoTrailingWhitespace(s.body)
    requires Declared(ss, hs)
    ensures Declared([s] + ss, [h] + hs)
  {
    var all, alh := [s] + ss, [h] + hs;
    assert all[0] == s && alh[0] == h;
    assert forall k :: 0 < k < |all| ==> all[k] == ss[k - 1] && alh[k] == hs[k - 1];
  }


  lemma {:induction false} HeadersAfterBody(ls: seq<string>, n: nat)
    requires ls != [] && IsHeader(ls[0]) && n == BodyRun(ls[1..])
    ensures Headers(ls) == [ls[0]] + Headers(ls[1 + n..])
  {
    var tail := ls[1..];
    var body, rest := tail[..n], tail[n..];
    assert tail == body + rest;
    forall i | 0 <= i < n
      ensures IsBody(body[i])
    {
      assert body[i] == tail[i];
    }
    NoHeadersInBody(body);
    HeadersAppend(body, rest);
    assert rest == ls[1 + n..];
  }

  lemma {:induction false} AllNamedCons(h: string, hs: seq<string>)
    ensures AllNamed([h] + hs) <==> Words(h) != [] && AllNamed(hs)
  {
    var all := [h] + hs;
    assert all[0] == h;
    assert forall k :: 0 <= k < |hs| ==> all[k + 1] == hs[k];
  }


  /**
   * `parse`: the file's scripts, or `Malformed` with no script at all when the text
   * does not match the grammar.
   */
  function Parse(text: string): (r: Result<seq<Script>, ParseError>)
    ensures r == Err(Malformed) <==> !Matches(text)
    ensures Matches(text) ==> (r.Ok? <==> AllNamed(Headers(SplitLines(text))))
    ensures text != [] && text[|text| - 1] != '\n' ==> r == Err(Malformed)
    ensures r.Ok? ==> |r.value| == |Headers(SplitLines(text))|
    ensures r.Ok? ==> forall k :: 0 <= k < |r.value| ==>
      [r.value[k].name] + r.value[k].parameters == Words(Headers(SplitLines(text))[k])
    ensures r.Ok? ==> forall k :: 0 <= k < |r.value| ==> NoTrailingWhitespace(r.value[k].body)
    ensures r.Ok? ==> forall k :: 0 <= k < |r.value| ==>
      var ls := SplitLines(text);
      r.value[k].body == TrimEnd(Unlines(BodyAfter(ls, HeaderPositions(ls)[k])))
  {
    if Matches(text) then
      var ls := SplitLines(text);
      var r := Extract(ls);
      if r.Ok? then BodiesAt(r.value, ls, HeaderPositions(ls)); r else r
    else Err(Malformed)
  }

  /**
   * A line that starts with a space and is not blank, with no header line before it,
   * makes the whole file malformed.
   */
  lemma {:induction false} OrphanBodyLineRejected(ls: seq<string>, i: nat)
    requires i < |ls| && ls[i] != [] && ls[i][0] == ' ' && !AllSpaces(ls[i])
    requires forall j :: 0 <= j < i ==> !IsHeader(ls[j])
    ensures !Accepts(ls, BeforeHeader)
  {
    if i > 0 {
      OrphanBodyLineRejected(ls[1..], i - 1);
    }
  }

  lemma {:induction false} OrphanBodyLineRejectsFile(text: string, i: nat)
    requires var ls := SplitLines(text);
      i < |ls| && ls[i] != [] && ls[i][0] == ' ' && !AllSpaces(ls[i])
      && forall j :: 0 <= j < i ==> !IsHeader(ls[j])
    ensures Parse(text) == Err(Malformed)
  {
    OrphanBodyLineRejected(SplitLines(text), i);
  }

  /** Blank lines are comments: a terminated file of blank lines parses to no script. */
  lemma {:induction false} BlankFileHasNoScripts(text: string)
    requires text == [] || text[|text| - 1] == '\n'
    requires forall k :: 0 <= k < |SplitLines(text)| ==> AllSpaces(SplitLines(text)[k])
    ensures Parse(text) == Ok([])
  {
    BlankLinesAccepted(SplitLines(text));
  }

  lemma {:induction false} BlankLinesAccepted(ls: seq<string>)
    requires forall k :: 0 <= k < |ls| ==> AllSpaces(ls[k])
    ensures Accepts(ls, BeforeHeader) && Headers(ls) == []
  {
    if ls != [] {
      assert forall k :: 0 <= k < |ls[1..]| ==> ls[1..][k] == ls[k + 1];
      BlankLinesAccepted(ls[1..]);
    }
  }

  // ---- The grammar in terms of single lines ----

  /**
   * The line classes: every line is a comment, a header or a body line. A header is
   * exactly a line that is neither of the others; a line is both a comment and a body
   * line exactly when it is blank, the empty line included.
   */
  lemma {:induction false} LineClasses(l: string)
    ensures IsComment(l) || IsHeader(l) || IsBody(l)
    ensures IsHeader(l) <==> !IsComment(l) && !IsBody(l)
    ensures IsComment(l) && IsBody(l) <==> AllSpaces(l)
  {
    if l != [] && l[0] == ' ' {
      assert !IsHeader(l);
    }
  }

  predicate AllBody(ls: seq<string>) {
    forall m :: 0 <= m < |ls| ==> IsBody(ls[m])
  }

  /**
   * Line `i` may be a body line: a header comes before it with only body lines in
   * between, or, read from stage `InBody`, only body lines come before it.
   */
  predicate Open(ls: seq<string>, i: nat, st: Stage)
    requires i <= |ls|
  {
    || (exists j :: 0 <= j < i && IsHeader(ls[j]) && AllBody(ls[j + 1..i]))
    || (st == InBody && AllBody(ls[..i]))
  }

  /** Every non-blank line that starts with a space may be a body line. */
  predicate NoOrphan(ls: seq<string>, st: Stage) {
    forall i :: 0 <= i < |ls| && IsBody(ls[i]) && !AllSpaces(ls[i]) ==> Open(ls, i, st)
  }

  /** The stage after line `l`: inside a body after a header or after a body line within one. */
  function Next(l: string, st: Stage): Stage {
    if IsHeader(l) || (st == InBody && IsBody(l)) then InBody else BeforeHeader
  }

  /**
   * The grammar `(comment* header body*)* comment*` holds exactly when no line that
   * starts with a space and is not blank stands outside a body.
   */
  lemma {:induction false} AcceptsIffNoOrphan(ls: seq<string>, st: Stage)
    ensures Accepts(ls, st) <==> NoOrphan(ls, st)
    decreases |ls|
  {
    if ls != [] {
      var l, rest := ls[0], ls[1..];
      AcceptsIffNoOrphan(rest, BeforeHeader);
      AcceptsIffNoOrphan(rest, InBody);
      NoOrphanStep(ls, st);
      NoOrphanMono(rest);
      LineClasses(l);
    }
  }

  /**
   * A text matches exactly when it is empty or ends in '\n' and every non-blank line
   * that starts with a space has a header before it with only body lines in between.
   */
  lemma {:induction false} MatchesIffNoOrphan(text: string)
    ensures Matches(text) <==> (text == [] || text[|text| - 1] == '\n') && NoOrphan(SplitLines(text), BeforeHeader)
  {
    AcceptsIffNoOrphan(SplitLines(text), BeforeHeader);
  }

  lemma {:induction false} NoOrphanMono(ls: seq<string>)
    ensures NoOrphan(ls, BeforeHeader) ==> NoOrphan(ls, InBody)
  {
  }

  lemma {:induction false} NoOrphanStep(ls: seq<string>, st: Stage)
    requires ls != []
    ensures NoOrphan(ls, st) <==>
      && (IsBody(ls[0]) && !AllSpaces(ls[0]) ==> st == InBody)
      && NoOrphan(ls[1..], Next(ls[0], st))
  {
    var rest, nx := ls[1..], Next(ls[0], st);
    assert Open(ls, 0, st) <==> st == InBody by {
      assert ls[..0] == [];
    }
    if NoOrphan(ls, st) {
      forall i | 0 <= i < |rest| && IsBody(rest[i]) && !AllSpaces(rest[i])
        ensures Open(rest, i, nx)
      {
        assert rest[i] == ls[i + 1];
        OpenStep(ls, i + 1, st);
      }
    }
    if (IsBody(ls[0]) && !AllSpaces(ls[0]) ==> st == InBody) && NoOrphan(rest, nx) {
      forall i | 0 <= i < |ls| && IsBody(ls[i]) && !AllSpaces(ls[i])
        ensures Open(ls, i, st)
      {
        if i > 0 {
          assert rest[i - 1] == ls[i];
          OpenStep(ls, i, st);
        }
      }
    }
  }

  /** Whether line `i` may be a body line, seen from the line after the first. */
  lemma {:induction false} OpenStep(ls: seq<string>, i: nat, st: Stage)
    requires 1 <= i <= |ls|
    ensures Open(ls, i, st) <==> Open(ls[1..], i - 1, Next(ls[0], st))
  {
    var rest := ls[1..];
    assert rest[..i - 1] == ls[1..i];
    if Open(ls, i, st) {
      OpenStepForward(ls, i, st);
    }
    if Open(rest, i - 1, Next(ls[0], st)) {
      OpenStepBack(ls, i, st);
    }
  }

  lemma {:induction false} OpenStepForward(ls: seq<string>, i: nat, st: Stage)
    requires 1 <= i <= |ls| && Open(ls, i, st)
    ensures Open(ls[1..], i - 1, Next(ls[0], st))
  {
    var rest := ls[1..];
    assert rest[..i - 1] == ls[1..i];
    if j :| 0 <= j < i && IsHeader(ls[j]) && AllBody(ls[j + 1..i]) {
      if j > 0 {
        assert rest[j - 1] == ls[j] && rest[j..i - 1] == ls[j + 1..i];
      }
    } else {
      assert ls[..i][0] == ls[0] && ls[..i][1..] == ls[1..i];
    }
  }

  lemma {:induction false} OpenStepBack(ls: seq<string>, i: nat, st: Stage)
    requires 1 <= i <= |ls| && Open(ls[1..], i - 1, Next(ls[0], st))
    ensures Open(ls, i, st)
  {
    var rest := ls[1..];
    assert rest[..i - 1] == ls[1..i];
    if j :| 0 <= j < i - 1 && IsHeader(rest[j]) && AllBody(rest[j + 1..i - 1]) {
      assert rest[j] == ls[j + 1] && rest[j + 1..i - 1] == ls[j + 2..i];
    } else if IsHeader(ls[0]) {
      assert ls[0 + 1..i] == ls[1..i];
    } else {
      assert ls[..i][0] == ls[0] && ls[..i][1..] == ls[1..i];
    }
  }

  // ---- Writing scripts back out: the inverse of Parse ----

  /** A body that survives a round trip: body lines only, nothing trailing. */
  predicate WellFormedBody(b: string) {
    b == [] || (!IsWhitespace(b[|b| - 1]) && forall k :: 0 <= k < |SplitLines(b + "\n")| ==> IsBody(SplitLines(b + "\n")[k]))
  }

  predicate Renderable(s: Script) {
    && IsWord(s.name)
    && s.name[0] != '#'
    && (forall k :: 0 <= k < |s.parameters| ==> IsWord(s.parameters[k]))
    && WellFormedBody(s.body)
  }

  function BodyLines(b: string): seq<string> {
    if b == [] then [] else SplitLines(b + "\n")
  }

  /** The header line followed by the body's lines. */
  function ScriptLines(s: Script): seq<string> {
    [Unwords([s.name] + s.parameters)] + BodyLines(s.body)
  }

  function FileLines(ss: seq<Script>): seq<string> {
    if ss == [] then [] else ScriptLines(ss[0]) + FileLines(ss[1..])
  }

  /** The scriptfile text that declares the scripts `ss`, in order. */
  function Render(ss: seq<Script>): string {
    Unlines(FileLines(ss))
  }

  lemma {:induction false} UnwordsStartsWithFirst(ws: seq<string>)
    requires ws != [] && ws[0] != []
    ensures Unwords(ws) != [] && Unwords(ws)[0] == ws[0][0]
  {
  }

  lemma {:induction false} UnwordsHasNoNewline(ws: seq<string>)
    requires forall k :: 0 <= k < |ws| ==> IsWord(ws[k])
    ensures '\n' !in Unwords(ws)
  {
    if |ws| > 1 {
      UnwordsHasNoNewline(ws[1..]);
      assert '\n' !in ws[0] by {
        assert forall i :: 0 <= i < |ws[0]| ==> !IsWhitespace(ws[0][i]);
      }
    } else if |ws| == 1 {
      assert forall i :: 0 <= i < |ws[0]| ==> !IsWhitespace(ws[0][i]);
    }
  }

  lemma {:induction false} HeaderLineOf(s: Script)
    requires Renderable(s)
    ensures var h := Unwords([s.name] + s.parameters);
      IsHeader(h) && !IsBody(h) && '\n' !in h && Words(h) == [s.name] + s.parameters
  {
    var ws := [s.name] + s.parameters;
    assert forall k :: 0 <= k < |ws| ==> IsWord(ws[k]);
    UnwordsStartsWithFirst(ws);
    UnwordsHasNoNewline(ws);
    WordsUnwords(ws);
  }

  lemma {:induction false} FileLinesHaveNoNewline(ss: seq<Script>)
    requires forall k :: 0 <= k < |ss| ==> Renderable(ss[k])
    ensures forall i :: 0 <= i < |FileLines(ss)| ==> '\n' !in FileLines(ss)[i]
  {
    if ss != [] {
      HeaderLineOf(ss[0]);
      FileLinesHaveNoNewline(ss[1..]);
    }
  }

  lemma {:induction false} BodyLinesAccepted(bl: seq<string>, rest: seq<string>)
    requires forall i :: 0 <= i < |bl| ==> IsBody(bl[i])
    requires Accepts(rest, InBody)
    ensures Accepts(bl + rest, InBody)
  {
    if bl == [] {
      assert bl + rest == rest;
    } else {
      assert (bl + rest)[0] == bl[0];
      assert (bl + rest)[1..] == bl[1..] + rest;
      BodyLinesAccepted(bl[1..], rest);
    }
  }

  lemma {:induction false} FileLinesAccepted(ss: seq<Script>, st: Stage)
    requires forall k :: 0 <= k < |ss| ==> Renderable(ss[k])
    ensures Accepts(FileLines(ss), st)
  {
    if ss != [] {
      assert forall k :: 0 <= k < |ss[1..]| ==> ss[1..][k] == ss[k + 1];
      FileLinesAccepted(ss[1..], InBody);
      ScriptLinesAccepted(ss[0], FileLines(ss[1..]), st);
    }
  }

  lemma {:induction false} ScriptLinesAccepted(s: Script, rest: seq<string>, st: Stage)
    requires Renderable(s) && Accepts(rest, InBody)
    ensures Accepts(ScriptLines(s) + rest, st)
  {
    HeaderLineOf(s);
    var h := Unwords([s.name] + s.parameters);
    var tail := BodyLines(s.body) + rest;
    BodyLinesAreBody(s.body);
    BodyLinesAccepted(BodyLines(s.body), rest);
    assert ScriptLines(s) + rest == [h] + tail;
    HeaderThenBodyAccepted(h, tail, st);
  }

  lemma {:induction false} BodyLinesAreBody(b: string)
    requires WellFormedBody(b)
    ensures forall i :: 0 <= i < |BodyLines(b)| ==> IsBody(BodyLines(b)[i])
  {
  }

  lemma {:induction false} HeaderThenBodyAccepted(h: string, tail: seq<string>, st: Stage)
    requires IsHeader(h) && Accepts(tail, InBody)
    ensures Accepts([h] + tail, st)
  {
    assert ([h] + tail)[0] == h && ([h] + tail)[1..] == tail;
  }

  lemma {:induction false} BodyOfRendered(b: string)
    requires WellFormedBody(b)
    ensures TrimEnd(Unlines(BodyLines(b))) == b
  {
    if b != [] {
      UnlinesSplitLines(b + "\n");
      TrimEndOfPadded(b, "\n");
    }
  }

  lemma {:induction false} ExtractFileLines(ss: seq<Script>)
    requires forall k :: 0 <= k < |ss| ==> Renderable(ss[k])
    ensures Extract(FileLines(ss)) == Ok(ss)
  {
    if ss != [] {
      BodyRunStopsAtHeader(BodyLines(ss[0].body), ss[1..]);
      ExtractFileLines(ss[1..]);
      ExtractOneScript(ss[0], ss[1..]);
      assert [ss[0]] + ss[1..] == ss;
    }
  }

  /** One rendered script in front of rendered scripts that extract back adds that script in front. */
  lemma {:induction false} ExtractOneScript(s: Script, tail: seq<Script>)
    requires Renderable(s)
    requires BodyRun(BodyLines(s.body) + FileLines(tail)) == |BodyLines(s.body)|
    requires Extract(FileLines(tail)) == Ok(tail)
    ensures Extract(ScriptLines(s) + FileLines(tail)) == Ok([s] + tail)
  {
    var bl := BodyLines(s.body);
    var rest := FileLines(tail);
    var h := Unwords([s.name] + s.parameters);
    RenderedScript(s);
    ExtractHeaderStep(h, bl, rest);
    assert ScriptLines(s) + rest == [h] + bl + rest;
  }

  /** The header and body lines of a renderable script give that script back. */
  lemma {:induction false} RenderedScript(s: Script)
    requires Renderable(s)
    ensures IsHeader(Unwords([s.name] + s.parameters))
    ensures forall i :: 0 <= i < |BodyLines(s.body)| ==> IsBody(BodyLines(s.body)[i])
    ensures ScriptOf(Unwords([s.name] + s.parameters), Unlines(BodyLines(s.body))) == Ok(s)
  {
    HeaderLineOf(s);
    BodyOfRendered(s.body);
  }

  /** A header line followed by exactly `bl` as its body lines is extracted as one script. */
  lemma {:induction false} ExtractHeaderStep(h: string, bl: seq<string>, rest: seq<string>)
    requires IsHeader(h) && BodyRun(bl + rest) == |bl|
    requires ScriptOf(h, Unlines(bl)).Ok? && Extract(rest).Ok?
    ensures Extract([h] + bl + rest) == Ok([ScriptOf(h, Unlines(bl)).value] + Extract(rest).value)
  {
    HeaderBlockSlices(h, bl, rest);
  }

  lemma {:induction false} HeaderBlockSlices(h: string, bl: seq<string>, rest: seq<string>)
    ensures ([h] + bl + rest)[0] == h
    ensures ([h] + bl + rest)[1..] == bl + rest
    ensures ([h] + bl + rest)[1..1 + |bl|] == bl
    ensures ([h] + bl + rest)[1 + |bl|..] == rest
  {
    var ls := [h] + bl + rest;
    assert ls[1..] == bl + rest;
    assert ls[1..][..|bl|] == bl;
  }


  lemma {:induction false} BodyRunStopsAtHeader(bl: seq<string>, ss: seq<Script>)
    requires forall i :: 0 <= i < |bl| ==> IsBody(bl[i])
    requires forall k :: 0 <= k < |ss| ==> Renderable(ss[k])
    ensures BodyRun(bl + FileLines(ss)) == |bl|
  {
    if bl != [] {
      assert (bl + FileLines(ss))[1..] == bl[1..] + FileLines(ss);
      BodyRunStopsAtHeader(bl[1..], ss);
    } else if ss != [] {
      HeaderLineOf(ss[0]);
    }
  }

  /** Parsing the rendered text of well-formed scripts gives those scripts back. */
  lemma {:induction false} ParseRender(ss: seq<Script>)
    requires forall k :: 0 <= k < |ss| ==> Renderable(ss[k])
    ensures Parse(Render(ss)) == Ok(ss)
  {
    FileLinesHaveNoNewline(ss);
    SplitLinesUnlines(FileLines(ss));
    FileLinesAccepted(ss, BeforeHeader);
    ExtractFileLines(ss);
  }
}
