/** Splitting text into lines as `str::lines` does, and joining it again. */
module Lines {

  /** Position of the first line feed, or the end of the text. */
  function LineEnd(s: string): (n: nat)
    ensures n <= |s| && forall k | 0 <= k < n :: s[k] != '\n'
    ensures n < |s| ==> s[n] == '\n'
  {
    if s == "" || s[0] == '\n' then 0
    else LineEnd(s[1..]) + 1
  }

  function StripCr(s: string): string {
    if s != "" && s[|s| - 1] == '\r' then s[..|s| - 1] else s
  }

  /** A line feed ends a line, with one carriage return before it; text after
      the last line feed is a line as it stands. */
  function SplitLines(s: string): seq<string>
    decreases |s|
  {
    if s == "" then []
    else
      var n := LineEnd(s);
      if n == |s| then [s] else [StripCr(s[..n])] + SplitLines(s[n + 1..])
  }

  /** Every line ended by a line feed. */
  function Unlines(lines: seq<string>): string {
    if lines == [] then "" else lines[0] + "\n" + Unlines(lines[1..])
  }

  /** Lines with a line feed between them. */
  function Join(lines: seq<string>): string {
    if lines == [] then ""
    else if |lines| == 1 then lines[0]
    else lines[0] + "\n" + Join(lines[1..])
  }

  predicate OneLine(s: string) {
    '\n' !in s && (s != "" ==> s[|s| - 1] != '\r')
  }

  lemma FirstLine(line: string, rest: string)
    requires OneLine(line)
    ensures SplitLines(line + "\n" + rest) == [line] + SplitLines(rest)
  {
    var s := line + "\n" + rest;
    assert s[|line|] == '\n' && forall k | 0 <= k < |line| :: s[k] == line[k] && line[k] in line;
    assert LineEnd(s) == |line|;
    assert s[..|line|] == line && s[|line| + 1..] == rest;
  }

  lemma LastLine(line: string)
    requires '\n' !in line && line != ""
    ensures SplitLines(line) == [line]
  {
    assert LineEnd(line) == |line|;
  }

  lemma {:induction false} SplitUnlines(lines: seq<string>)
    requires forall l <- lines :: OneLine(l)
    ensures SplitLines(Unlines(lines)) == lines
  {
    if lines == [] {
    } else {
      assert lines[0] in lines && forall l <- lines[1..] :: l in lines;
      FirstLine(lines[0], Unlines(lines[1..]));
      SplitUnlines(lines[1..]);
    }
  }

  lemma {:induction false} SplitJoin(lines: seq<string>)
    requires forall l <- lines :: OneLine(l)
    requires lines != [] ==> lines[|lines| - 1] != ""
    ensures SplitLines(Join(lines)) == lines
  {
    if |lines| == 1 {
      assert lines[0] in lines;
      LastLine(lines[0]);
      assert lines == [lines[0]];
    } else if lines != [] {
      var rest := lines[1..];
      assert lines[0] in lines && forall l <- rest :: l in lines;
      assert rest[|rest| - 1] == lines[|lines| - 1];
      SplitJoin(rest);
      FirstLine(lines[0], Join(rest));
      assert lines == [lines[0]] + rest;
    }
  }

  /** A line ends with a line feed, or a carriage return and a line feed; a
      carriage return elsewhere belongs to the line, and so does one at the end. */
  lemma LineLaw(line: string, rest: string)
    requires OneLine(line)
    ensures SplitLines(line + "\n" + rest) == [line] + SplitLines(rest)
    ensures SplitLines(line + "\r\n" + rest) == [line] + SplitLines(rest)
    ensures SplitLines(line + "\r") == [line + "\r"]
    ensures SplitLines("") == []
  {
    FirstLine(line, rest);
    var s := line + "\r\n" + rest;
    assert s[|line|] == '\r' && s[|line| + 1] == '\n';
    assert forall k | 0 <= k < |line| :: s[k] == line[k] && line[k] in line;
    assert LineEnd(s) == |line| + 1;
    assert s[..|line| + 1] == line + "\r" && (line + "\r")[..|line|] == line && s[|line| + 2..] == rest;
    LastLine(line + "\r");
  }
}
