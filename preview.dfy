/**
 * `Script::print`: the body echoed before it runs, one `"> "`-prefixed line per body
 * line, with the body's indentation taken off each line.
 */
module Preview {
  import opened Text

  function Min(a: nat, b: nat): nat {
    if a <= b then a else b
  }

  function Spaces(n: nat): (s: string)
    ensures |s| == n && AllSpaces(s)
  {
    if n == 0 then [] else " " + Spaces(n - 1)
  }

  /**
   * `line.split_at(indentation.min(line.len())).1`: the line without its first
   * `indent` characters, or empty when it is shorter than that.
   */
  function Dedent(line: string, indent: nat): (r: string)
    ensures |r| == |line| - Min(indent, |line|)
    ensures line == line[..|line| - |r|] + r
  {
    line[Min(indent, |line|)..]
  }

  /** One output line: the marker, then the dedented line. */
  function Shown(line: string, indent: nat): string {
    "> " + Dedent(line, indent)
  }

  /** The preview of a body: indentation is the count of spaces that start the body. */
  function PreviewOf(body: string): (out: seq<string>)
    ensures |out| == |RustLines(body)|
  {
    var lines := RustLines(body);
    var indent := LeadingSpaces(body);
    seq(|lines|, k requires 0 <= k < |lines| => Shown(lines[k], indent))
  }

  /**
   * The loop of `Script::print`, collecting what it writes to standard error: one
   * output line per line of the body.
   */
  method Print(body: string) returns (out: seq<string>)
    ensures out == PreviewOf(body)
  {
    var indentation := LeadingSpaces(body);
    var lines := RustLines(body);
    out := [];
    var k := 0;
    while k < |lines|
      invariant k <= |lines|
      invariant out == PreviewOf(body)[..k]
    {
      out := out + [Shown(lines[k], indentation)];
      k := k + 1;
    }
  }

  /** A line indented at least `indent` deep loses exactly `indent` spaces and nothing else. */
  lemma {:induction false} DedentIndented(line: string, indent: nat)
    requires LeadingSpaces(line) >= indent
    ensures Spaces(indent) + Dedent(line, indent) == line
  {
    var pad := Spaces(indent);
    forall i | 0 <= i < indent
      ensures line[..indent][i] == pad[i]
    {
      assert line[i] == ' ';
    }
    assert line[..indent] == pad;
    assert line == line[..indent] + line[indent..];
  }

  /** The first output line shows the first body line with all its leading spaces gone. */
  lemma {:induction false} FirstLineUnindented(body: string)
    requires body != []
    ensures PreviewOf(body) != []
    ensures
      var shown := PreviewOf(body)[0];
      |shown| >= 2 && shown[..2] == "> " && (|shown| == 2 || shown[2] != ' ')
  {
    LeadingSpacesOfFirstLine(body);
    var first := RustLines(body)[0];
    var d := Dedent(first, LeadingSpaces(body));
    assert d == first[LeadingSpaces(first)..];
    if d != [] {
      assert d[0] == first[LeadingSpaces(first)];
    }
    assert PreviewOf(body)[0] == "> " + d;
  }

  /**
   * When every body line is indented at least as deep as the first, the preview loses
   * only that indentation: putting it back in front of each shown line and joining the
   * lines rebuilds a stored body (one without '\r' and without a final '\n'). Bodies
   * from a file with "\r\n" line ends are not covered: their inner '\r's are dropped
   * from the preview.
   */
  lemma {:induction false} PreviewKeepsText(body: string)
    requires '\r' !in body
    requires body == [] || body[|body| - 1] != '\n'
    requires forall k :: 0 <= k < |RustLines(body)| ==> LeadingSpaces(RustLines(body)[k]) >= LeadingSpaces(body)
    ensures
      var out := PreviewOf(body);
      JoinLines(seq(|out|, k requires 0 <= k < |out| => Spaces(LeadingSpaces(body)) + out[k][2..])) == body
  {
    var out := PreviewOf(body);
    var lines := RustLines(body);
    var indent := LeadingSpaces(body);
    var rebuilt := seq(|out|, k requires 0 <= k < |out| => Spaces(indent) + out[k][2..]);
    assert rebuilt == lines by {
      forall k | 0 <= k < |lines| ensures rebuilt[k] == lines[k] {
        assert out[k][2..] == Dedent(lines[k], indent);
        DedentIndented(lines[k], indent);
      }
    }
    JoinRustLines(body);
  }

  /**
   * The clamp `min(indentation, line.len())` takes off whole characters, spaces or not:
   * a line with text that is indented less than the first line loses some of that
   * text from the preview, not only its spaces.
   */
  lemma {:induction false} ShallowLineLosesText(line: string, indent: nat)
    requires LeadingSpaces(line) < indent && LeadingSpaces(line) < |line|
    ensures |Dedent(line, indent)| < |line| - LeadingSpaces(line)
    ensures Dedent(line, indent) != line[LeadingSpaces(line)..]
  {
  }
}
