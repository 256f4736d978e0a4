/** The literal lines that the Codex extractor tells apart. */
module CodexLines {
  import opened CodexFallback
  import opened CodexOutput
  import opened Lines
  import opened Text

  const PREFIXES: seq<string> := ["tokens used:", "model:", "provider:", "session id:", "duration:"]

  lemma {:induction false} TrimEndKeeps(p: string, v: string)
    requires p != "" && !IsSpace(p[|p| - 1])
    ensures p <= TrimEnd(p + v)
  {
    if v == "" {
      assert p + v == p;
    } else {
      assert (p + v)[..|p + v| - 1] == p + v[..|v| - 1];
      TrimEndKeeps(p, v[..|v| - 1]);
    }
  }

  lemma {:induction false} IndentTrims(indent: string, s: string)
    requires forall i | 0 <= i < |indent| :: IsSpace(indent[i])
    requires s != "" && !IsSpace(s[0])
    ensures TrimStart(indent + s) == s
  {
    if indent == "" {
      assert indent + s == s;
    } else {
      assert (indent + s)[1..] == indent[1..] + s;
      IndentTrims(indent[1..], s);
    }
  }

  /** White space before and after does not matter. */
  lemma {:induction false} TrimsTo(indent: string, s: string, tail: string)
    requires forall i | 0 <= i < |indent| :: IsSpace(indent[i])
    requires forall i | 0 <= i < |tail| :: IsSpace(tail[i])
    requires s != "" && Trimmed(s)
    ensures Trim(indent + (s + tail)) == s
  {
    IndentTrims(indent, s + tail);
    TailTrims(s, tail);
  }

  lemma {:induction false} TailTrims(s: string, tail: string)
    requires forall i | 0 <= i < |tail| :: IsSpace(tail[i])
    requires s != "" && !IsSpace(s[|s| - 1])
    ensures TrimEnd(s + tail) == s
  {
    if tail == "" {
      assert s + tail == s;
    } else {
      assert (s + tail)[..|s + tail| - 1] == s + tail[..|tail| - 1];
      TailTrims(s, tail[..|tail| - 1]);
    }
  }

  /** A line that starts, after white space, with one of the five keys. */
  lemma MetadataLine(indent: string, i: nat, value: string)
    requires forall k | 0 <= k < |indent| :: IsSpace(indent[k])
    requires i < 5
    ensures IsMetadata(indent + (PREFIXES[i] + value))
  {
    var p := PREFIXES[i];
    IndentTrims(indent, p + value);
    TrimEndKeeps(p, value);
  }

  /** The word in any case, with white space around it, and nothing else. */
  lemma HeaderLine(indent: string, tail: string)
    requires forall i | 0 <= i < |indent| :: IsSpace(indent[i])
    requires forall i | 0 <= i < |tail| :: IsSpace(tail[i])
    ensures IsHeader(indent + ("codex" + tail)) && IsHeader(indent + ("Codex" + tail))
    ensures IsHeader(indent + ("CODEX" + tail))
    ensures !IsHeader("codex:") && !IsHeader("")
  {
    TrimsTo(indent, "codex", tail);
    TrimsTo(indent, "Codex", tail);
    TrimsTo(indent, "CODEX", tail);
    assert LowerCase("codex") == "codex" && LowerCase("Codex") == "codex" && LowerCase("CODEX") == "codex";
    TrimsTo("", "codex:", "");
    assert "" + ("codex:" + "") == "codex:" && |LowerCase("codex:")| == 6;
  }

  lemma LiteralHeader()
    ensures IsHeader("codex") && OneLine("codex")
  {
    TrimIsTrimmed("codex");
    assert LowerCase("codex") == "codex";
  }

  /** Hyphens, box-drawing lines and spaces make a rule. */
  lemma RuleLines()
    ensures IsSeparator("---") && IsSeparator("\U{2500}\U{2500}") && IsSeparator(" - \U{2500} ")
  {
    TrimsTo("", "---", "");
    assert "" + ("---" + "") == "---";
    TrimsTo("", "\U{2500}\U{2500}", "");
    assert "" + ("\U{2500}\U{2500}" + "") == "\U{2500}\U{2500}";
    TrimsTo(" ", "- \U{2500}", " ");
    assert " " + ("- \U{2500}" + " ") == " - \U{2500} ";
  }

  /** But not spaces alone, and not with anything else between them. */
  lemma NoRuleLines()
    ensures !IsSeparator("") && !IsSeparator("  ") && !IsSeparator("-a-")
  {
    TrimEmpty("  ");
    TrimEmpty("");
    TrimsTo("", "-a-", "");
    assert "" + ("-a-" + "") == "-a-" && "-a-"[1] in "-a-";
  }

  lemma FrameLines(header: string, content: seq<string>, rule: string, metadata: string)
    ensures [] + [header] + (content + [rule] + [metadata] + []) == [header] + content + [rule] + [metadata]
    ensures forall l <- [header] + content + [rule] + [metadata] ::
      l == header || l == rule || l == metadata || l in content
  {
  }

  lemma PlainRoundTrip(header: string, content: seq<string>, rule: string, metadata: string)
    requires IsHeader(header) && IsSeparator(rule) && IsMetadata(metadata) && Frameable(content)
    requires OneLine(header) && OneLine(rule) && OneLine(metadata) && forall l <- content :: OneLine(l)
    ensures Extract(Unlines([header] + content + [rule] + [metadata])) == Join(content)
  {
    FrameLines(header, content, rule, metadata);
    FramingRoundTrip([], header, content, [rule], metadata, []);
  }

  lemma PrefixLine(i: nat, value: string)
    requires i < 5
    ensures IsMetadata(PREFIXES[i] + value)
  {
    MetadataLine("", i, value);
    assert "" + (PREFIXES[i] + value) == PREFIXES[i] + value;
  }

  /** The round trip on the literal lines: a header, the answer, a rule, and any
      one of the five metadata lines. */
  lemma LiteralRoundTrip(content: seq<string>, i: nat, value: string)
    requires i < 5 && Frameable(content) && OneLine(PREFIXES[i] + value) && forall l <- content :: OneLine(l)
    ensures Extract(Unlines(["codex"] + content + ["---"] + [PREFIXES[i] + value])) == Join(content)
  {
    LiteralHeader();
    RuleLines();
    PrefixLine(i, value);
    PlainRoundTrip("codex", content, "---", PREFIXES[i] + value);
  }

  lemma SectionToEnd(content: seq<string>)
    requires Frameable(content)
    ensures SectionBy(content, IsMetadata, IsSeparator) == content
  {
    PositionAfter(content, [], IsMetadata);
    assert content + [] == content && content[..|content|] == content;
    EndsStay(content, IsSeparator);
  }

  lemma OpenSection(header: string, content: seq<string>)
    requires IsHeader(header) && Frameable(content)
    ensures SectionAfter([header] + content, IsHeader, IsMetadata, IsSeparator) == Some(content)
  {
    HeaderFound([], header, content, IsHeader);
    assert [] + [header] + content == [header] + content;
    SectionToEnd(content);
  }

  lemma OpenRoundTrip(header: string, content: seq<string>)
    requires IsHeader(header) && OneLine(header) && Frameable(content) && forall l <- content :: OneLine(l)
    ensures Extract(Unlines([header] + content)) == Join(content)
  {
    SplitUnlines([header] + content);
    OpenSection(header, content);
  }

  /** Without metadata the section runs to the end of the text. */
  lemma NoMetadata(content: seq<string>)
    requires Frameable(content) && forall l <- content :: OneLine(l)
    ensures Extract(Unlines(["codex"] + content)) == Join(content)
  {
    LiteralHeader();
    OpenRoundTrip("codex", content);
  }

  // The fallback pattern

  lemma OneLineIsLine(s: string)
    requires '\n' !in s
    ensures LineEnd(s) == |s| && LineOf(s) == s
  {
  }

  lemma KeyFound(i: nat, value: string)
    requires i < 5 && value != "" && IsSpace(value[0])
    ensures KeyLength(PREFIXES[i] + value) == |PREFIXES[i]|
  {
    var p := PREFIXES[i];
    assert (p + value)[0] == p[0] && (p + value)[..|p|] == p && (p + value)[|p|] == value[0];
  }

  lemma LongMatchGoes(s: string)
    requires s != "" && MatchLength(s) == |s|
    ensures Blanked(s, true) == ""
  {
    assert s[|s|..] == "";
  }

  lemma KeyMatchesAll(s: string, k: nat)
    requires '\n' !in s && KeyLength(s) == k && 0 < k < |s|
    ensures MatchLength(s) == |s|
  {
    OneLineIsLine(s);
    assert forall c <- s[k + 1..] :: c in s;
    OneLineIsLine(s[k + 1..]);
  }

  /** Without a header, a line of a key, a white space and anything is taken out. */
  lemma KeyLineGone(i: nat, value: string)
    requires i < 5 && value != "" && IsSpace(value[0]) && '\n' !in PREFIXES[i] + value
    ensures Fallback(PREFIXES[i] + value) == ""
  {
    KeyFound(i, value);
    KeyMatchesAll(PREFIXES[i] + value, |PREFIXES[i]|);
    LongMatchGoes(PREFIXES[i] + value);
  }

  lemma OneLineKept(s: string)
    requires s != "" && '\n' !in s && !Matches(s) && Trimmed(s)
    ensures Fallback(s) == s
  {
    OneLineIsLine(s);
    assert forall c <- s[1..] :: c in s;
    OneLineStays(s[1..]);
    UnmarkedKept(s, true);
    TrimIsTrimmed(s);
  }

  lemma NoMatch()
    ensures !Matches("model:x") && !Matches("--")
  {
    assert "model:x"[0] == 'm' && "model:x"[6] == 'x';
  }

  lemma PlainWords()
    ensures '\n' !in "model:x" && Trimmed("model:x") && '\n' !in "--" && Trimmed("--")
  {
  }

  /** A key without the white space is text like any other, and so are hyphens. */
  lemma KeyWordKept()
    ensures Fallback("model:x") == "model:x" && Fallback("--") == "--"
  {
    NoMatch();
    PlainWords();
    OneLineKept("model:x");
    OneLineKept("--");
  }

  /** A box-drawing line is taken out with the white space after it. */
  lemma BoxLineGone()
    ensures Fallback("\U{2500}\U{2500} ") == ""
  {
    var rule := "\U{2500}\U{2500} ";
    OneLineIsLine(rule);
    assert rule[1..] == "\U{2500} " && rule[2..] == " " && RuleRun(" ") == 0;
    assert RuleRun(rule[1..]) == 1 && RuleRun(rule) == 2;
    assert RuleLine(rule);
    assert SpaceRun(rule[2..]) == 1 by {
      assert " "[1..] == "";
    }
    LongMatchGoes(rule);
  }

  lemma KeyLineOf()
    ensures LineOf("model:\nfoo") == "model:\n" && KeyLength("model:\n") == 6
  {
    var s := "model:\nfoo";
    assert LineEnd(s) == 6 by {
      assert s[6] == '\n' && forall k | 0 <= k < 6 :: s[k] != '\n';
    }
  }

  /** White space after a key may be its line feed: the next line goes with it. */
  lemma KeyTakesNextLine()
    ensures Blanked("model:\nfoo", true) == ""
  {
    var s := "model:\nfoo";
    KeyLineOf();
    assert s[7..] == "foo" && LineEnd("foo") == 3 by {
      OneLineIsLine("foo");
    }
    LongMatchGoes(s);
  }

  /** White space after a rule is taken to the last blank line, not past it. */
  lemma RuleTakesBlankLines()
    ensures MatchLength("\U{2500}\n\nx") == 2
  {
    var s := "\U{2500}\n\nx";
    assert LineEnd(s) == 1 && LineOf(s) == "\U{2500}\n";
    assert s[1..] == "\n\nx" && RuleRun(s[1..]) == 0 && RuleRun(s) == 1;
    assert LineOf(s)[1..] == "\n" && RuleRun(LineOf(s)) == 1;
    assert RuleLine(LineOf(s)) && KeyLength(LineOf(s)) == 0;
    BlankRun();
  }

  lemma BlankRun()
    ensures SpaceToLineEnd("\n\nx") == 1
  {
    var t := "\n\nx";
    assert t[1..] == "\nx" && t[1..][1..] == "x" && SpaceRun("x") == 0;
    assert SpaceRun("\nx") == 1 && SpaceRun(t) == 2 && t[..2] == "\n\n";
    assert LastBreak("\n\n") == 1;
  }
}
