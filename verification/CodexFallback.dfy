/** Blanking metadata lines out of codex output that has no section header. */
module CodexFallback {
  import opened Lines
  import opened Text

  // What the pattern matches at the start of a line. Whether it matches depends
  // on the first line alone, with its line feed; how far, on what follows.

  predicate KeyAt(line: string, key: string) {
    key <= line && |key| < |line| && IsSpace(line[|key|])
  }

  /** Length of the metadata key the line starts with, or 0. */
  function KeyLength(line: string): nat {
    if KeyAt(line, "model:") then 6
    else if KeyAt(line, "provider:") then 9
    else if KeyAt(line, "session id:") then 11
    else if KeyAt(line, "tokens used:") then 12
    else if KeyAt(line, "duration:") then 9
    else 0
  }

  function RuleRun(s: string): (n: nat)
    ensures n <= |s| && (n > 0 <==> s != "" && s[0] == '\U{2500}')
    ensures forall k | 0 <= k < n :: s[k] == '\U{2500}'
    ensures n < |s| ==> s[n] != '\U{2500}'
  {
    if s != "" && s[0] == '\U{2500}' then RuleRun(s[1..]) + 1 else 0
  }

  function SpaceRun(s: string): (n: nat)
    ensures n <= |s| && forall k | 0 <= k < n :: IsSpace(s[k])
    ensures n < |s| ==> !IsSpace(s[n])
  {
    if s != "" && IsSpace(s[0]) then SpaceRun(s[1..]) + 1 else 0
  }

  predicate RuleLine(line: string) {
    RuleRun(line) > 0 && forall c <- line[RuleRun(line)..] :: IsSpace(c)
  }

  /** The first line, with its line feed if it has one. */
  function LineOf(s: string): string {
    if LineEnd(s) < |s| then s[..LineEnd(s) + 1] else s
  }

  predicate Matches(line: string) {
    KeyLength(line) > 0 || RuleLine(line)
  }

  /** Position of the last line feed, or 0. */
  function LastBreak(s: string): (n: nat)
    ensures n <= |s| && ('\n' in s ==> n < |s| && s[n] == '\n')
  {
    if s == "" then 0 else if s[|s| - 1] == '\n' then |s| - 1 else LastBreak(s[..|s| - 1])
  }

  /** White space up to the end of the text, or up to the last line feed before
      something else. */
  function SpaceToLineEnd(s: string): (n: nat)
    ensures n <= |s|
  {
    if SpaceRun(s) == |s| then |s| else LastBreak(s[..SpaceRun(s)])
  }

  function RuleMatch(s: string): (n: nat)
    ensures RuleRun(s) <= n <= |s|
  {
    RuleRun(s) + SpaceToLineEnd(s[RuleRun(s)..])
  }

  function KeyMatch(s: string, key: nat): (n: nat)
    requires key < |s|
    ensures 0 < n <= |s| && (n == |s| || s[n] == '\n')
  {
    key + 1 + LineEnd(s[key + 1..])
  }

  function MatchLength(s: string): (n: nat)
    ensures n <= |s| && (n > 0 <==> Matches(LineOf(s)))
  {
    if KeyLength(LineOf(s)) > 0 then KeyMatch(s, KeyLength(LineOf(s)))
    else if RuleLine(LineOf(s)) then RuleMatch(s)
    else 0
  }

  /** Every match at the start of a line is taken out, left to right. */
  function Blanked(s: string, atStart: bool): (r: string)
    ensures |r| <= |s|
    decreases |s|
  {
    if s == "" then ""
    else
      var n := if atStart then MatchLength(s) else 0;
      if n > 0 then Blanked(s[n..], s[n - 1] == '\n')
      else [s[0]] + Blanked(s[1..], s[0] == '\n')
  }

  function Fallback(raw: string): string {
    Trim(Blanked(raw, true))
  }

  /** No line starts with a match. */
  predicate Unmarked(s: string, atStart: bool) {
    s == "" || ((atStart ==> !Matches(LineOf(s))) && Unmarked(s[1..], s[0] == '\n'))
  }

  lemma ConsLine(c: char, s: string)
    ensures LineOf([c] + s) == if c == '\n' then "\n" else [c] + LineOf(s)
  {
    assert ([c] + s)[1..] == s;
  }

  lemma {:induction false} RestOfLine(s: string)
    ensures LineOf(Blanked(s, false)) == LineOf(s)
  {
    if s == "" {
    } else {
      var rest := Blanked(s[1..], s[0] == '\n');
      ConsLine(s[0], rest);
      ConsLine(s[0], s[1..]);
      assert s == [s[0]] + s[1..];
      if s[0] != '\n' {
        RestOfLine(s[1..]);
      }
    }
  }

  lemma SpaceEndsLine(t: string)
    requires forall k | 0 <= k < LineEnd(t) :: IsSpace(t[k])
    ensures var m := SpaceToLineEnd(t); m == |t| || t[m] == '\n'
  {
    var end, run := LineEnd(t), SpaceRun(t);
    if end < |t| && run < |t| {
      assert run > end && t[..run][end] == '\n';
    }
  }

  /** White space between a rule and the end of its line. */
  lemma RuleThenSpace(s: string)
    requires RuleLine(LineOf(s))
    ensures var t := s[RuleRun(s)..]; forall k | 0 <= k < LineEnd(t) :: IsSpace(t[k])
  {
    var line, n := LineOf(s), RuleRun(LineOf(s));
    RuleRunIs(s, n);
    var t := s[n..];
    forall k | 0 <= k < LineEnd(t) ensures IsSpace(t[k]) {
      LineEndIs(s, n);
      assert line[n..][k] == t[k];
    }
  }

  lemma LineEndIs(s: string, n: nat)
    requires n <= |s| && forall k | 0 <= k < n :: s[k] != '\n'
    ensures LineEnd(s) == n + LineEnd(s[n..])
  {
    var e := LineEnd(s[n..]);
    forall k | n <= k < n + e ensures s[k] != '\n' {
      assert s[n..][k - n] == s[k];
    }
    assert n + e < |s| ==> s[n..][e] == s[n + e];
  }

  lemma RuleMatchEndsLine(s: string)
    requires RuleLine(LineOf(s))
    ensures RuleMatch(s) == |s| || s[RuleMatch(s)] == '\n'
  {
    RuleThenSpace(s);
    SpaceEndsLine(s[RuleRun(s)..]);
  }

  /** A match stops at the end of a line. */
  lemma MatchEndsLine(s: string)
    requires MatchLength(s) > 0
    ensures MatchLength(s) == |s| || s[MatchLength(s)] == '\n'
  {
    if RuleLine(LineOf(s)) {
      RuleMatchEndsLine(s);
    }
  }

  lemma RuleRunIs(s: string, n: nat)
    requires n <= |s| && forall k | 0 <= k < n :: s[k] == '\U{2500}'
    requires n < |s| ==> s[n] != '\U{2500}'
    ensures RuleRun(s) == n
  {
  }

  lemma NoMatchAtBreak(s: string)
    requires s != "" ==> s[0] == '\n'
    ensures !Matches(LineOf(s))
  {
  }

  /** What is left has no line the pattern matches. */
  lemma {:induction false} BlankedUnmarked(s: string, atStart: bool)
    ensures Unmarked(Blanked(s, atStart), atStart)
    decreases |s|
  {
    if s != "" {
      var n := if atStart then MatchLength(s) else 0;
      if n > 0 {
        BlankedUnmarked(s[n..], s[n - 1] == '\n');
        if n < |s| {
          MatchEndsLine(s);
          NoMatchAtBreak(s[n..]);
          BlankedAtBreak(s[n..], s[n - 1] == '\n');
        }
        NoMatchAtBreak(Blanked(s, atStart));
      } else {
        BlankedUnmarked(s[1..], s[0] == '\n');
        LineKept(s);
        assert ([s[0]] + Blanked(s[1..], s[0] == '\n'))[1..] == Blanked(s[1..], s[0] == '\n');
      }
    }
  }

  lemma BlankedAtBreak(s: string, atStart: bool)
    requires s != "" && s[0] == '\n'
    ensures Blanked(s, atStart)[..1] == "\n"
  {
    NoMatchAtBreak(s);
  }

  /** A first line that stays is not changed. */
  lemma LineKept(s: string)
    requires s != ""
    ensures LineOf([s[0]] + Blanked(s[1..], s[0] == '\n')) == LineOf(s)
  {
    RestOfLine(s);
  }

  lemma {:induction false} UnmarkedKept(s: string, atStart: bool)
    ensures Blanked(s, atStart) == s <==> Unmarked(s, atStart)
    ensures Blanked(s, atStart) != s ==> |Blanked(s, atStart)| < |s|
  {
    if s != "" {
      if !(atStart && MatchLength(s) > 0) {
        UnmarkedKept(s[1..], s[0] == '\n');
        assert s == [s[0]] + s[1..];
        assert ([s[0]] + Blanked(s[1..], s[0] == '\n'))[1..] == Blanked(s[1..], s[0] == '\n');
      }
    }
  }

  /** Whether place `i` is the start of a line. */
  predicate LineStart(s: string, atStart: bool, i: nat)
    requires i <= |s|
  {
    if i == 0 then atStart else s[i - 1] == '\n'
  }

  lemma RestUnmarked(s: string, atStart: bool)
    requires Unmarked(s, atStart) && s != ""
    ensures Unmarked(s[1..], LineStart(s, atStart, 1))
  {
  }

  lemma {:induction false} SuffixUnmarked(s: string, atStart: bool, i: nat)
    requires Unmarked(s, atStart) && i <= |s|
    ensures Unmarked(s[i..], LineStart(s, atStart, i))
    decreases i
  {
    if i == 0 {
      assert s[0..] == s;
    } else {
      SuffixUnmarked(s, atStart, i - 1);
      RestUnmarked(s[i - 1..], LineStart(s, atStart, i - 1));
      assert s[i - 1..][1..] == s[i..];
    }
  }

  lemma UnmarkedInside(s: string, atStart: bool)
    requires Unmarked(s, atStart)
    ensures Unmarked(s, false)
  {
  }

  lemma KeyLonger(short: string, line: string)
    requires short <= line && KeyLength(short) > 0
    ensures KeyLength(line) > 0
  {
  }

  lemma RuleLonger(short: string, line: string)
    requires short <= line && (forall k | |short| <= k < |line| :: IsSpace(line[k])) && RuleLine(short)
    ensures RuleLine(line)
  {
    var n := RuleRun(short);
    RuleRunIs(line, n);
    forall c <- line[n..] ensures IsSpace(c) {
      var k :| 0 <= k < |line[n..]| && line[n..][k] == c;
      assert n + k < |short| ==> short[n..][k] == c;
    }
  }

  lemma SpacesKeepMatch(s: string, m: nat)
    requires m <= |s| && forall c <- s[m..] :: IsSpace(c)
    requires Matches(LineOf(s[..m]))
    ensures Matches(LineOf(s))
  {
    LongerLine(s, m);
    if KeyLength(LineOf(s[..m])) > 0 {
      KeyLonger(LineOf(s[..m]), LineOf(s));
    } else {
      RuleLonger(LineOf(s[..m]), LineOf(s));
    }
  }

  /** Cutting the text at `m` cuts its first line by white space at most. */
  lemma LongerLine(s: string, m: nat)
    requires m <= |s| && forall c <- s[m..] :: IsSpace(c)
    ensures var short, line := LineOf(s[..m]), LineOf(s);
            && |short| <= |line| && short == line[..|short|]
            && forall k | |short| <= k < |line| :: IsSpace(line[k])
  {
    var short, line := LineOf(s[..m]), LineOf(s);
    var a, b := LineEnd(s[..m]), LineEnd(s);
    if a < m {
      assert a == b;
    } else {
      assert b >= m;
      forall k | m <= k < |line| ensures IsSpace(line[k]) {
        assert s[m..][k - m] == line[k];
      }
    }
  }

  lemma {:induction false} PrefixUnmarked(s: string, atStart: bool, m: nat)
    requires Unmarked(s, atStart) && m <= |s| && forall c <- s[m..] :: IsSpace(c)
    ensures Unmarked(s[..m], atStart)
  {
    if m == 0 {
    } else {
      assert s[1..][..m - 1] == s[..m][1..] && s[1..][m - 1..] == s[m..];
      PrefixUnmarked(s[1..], s[0] == '\n', m - 1);
      if atStart && Matches(LineOf(s[..m])) {
        SpacesKeepMatch(s, m);
      }
    }
  }

  lemma {:induction false} TrimEndCut(s: string)
    ensures forall c <- s[|TrimEnd(s)|..] :: IsSpace(c)
  {
    if s != [] && IsSpace(s[|s| - 1]) {
      TrimEndCut(s[..|s| - 1]);
      var n := |TrimEnd(s)|;
      assert s[n..] == s[..|s| - 1][n..] + [s[|s| - 1]];
    }
  }

  lemma FallbackUnmarked(raw: string)
    ensures Unmarked(Fallback(raw), false)
  {
    var s := Blanked(raw, true);
    BlankedUnmarked(raw, true);
    var t := TrimStart(s);
    TrimStartIsSuffix(s);
    SuffixUnmarked(s, true, |s| - |t|);
    UnmarkedInside(t, LineStart(s, true, |s| - |t|));
    TrimEndIsPrefix(t);
    TrimEndCut(t);
    PrefixUnmarked(t, false, |TrimEnd(t)|);
  }

  lemma UnmarkedFromStart(s: string)
    requires Unmarked(s, false)
    ensures Unmarked(s, true) <==> !Matches(LineOf(s))
  {
    if s == "" {
      NoMatchAtBreak(s);
    }
  }

  lemma SettledText(once: string)
    requires Trimmed(once)
    ensures Fallback(once) == once <==> Unmarked(once, true)
  {
    var next := Blanked(once, true);
    UnmarkedKept(once, true);
    TrimIsTrimmed(once);
    TrimIsTrimmed(next);
  }

  // When a second pass changes the result, told from the text before trimming

  /** A metadata key and nothing after it but white space. */
  predicate BareKey(s: string) {
    KeyLength(LineOf(s)) > 0 && forall c <- s[KeyLength(LineOf(s))..] :: IsSpace(c)
  }

  /** The first text that is not white space is indented, and its line would
      match if it were not. */
  predicate Resurfaces(s: string) {
    var p := SpaceRun(s);
    0 < p && s[p - 1] != '\n' && Matches(LineOf(s[p..])) && !BareKey(s[p..])
  }

  lemma {:induction false} TrimStartRun(s: string)
    ensures TrimStart(s) == s[SpaceRun(s)..]
  {
    if s != "" && IsSpace(s[0]) {
      TrimStartRun(s[1..]);
      assert s[1..][SpaceRun(s[1..])..] == s[SpaceRun(s)..];
    } else {
      assert s[0..] == s;
    }
  }

  lemma FirstUnmarked(s: string, atStart: bool)
    requires Unmarked(s, atStart) && s != "" && Matches(LineOf(s))
    ensures !atStart
  {
  }

  /** A line that is not indented does not match. */
  lemma OnlyIndentedMatch(s: string, p: nat)
    requires Unmarked(s, true) && p < |s| && Matches(LineOf(s[p..]))
    ensures 0 < p && s[p - 1] != '\n'
  {
    SuffixUnmarked(s, true, p);
    FirstUnmarked(s[p..], LineStart(s, true, p));
  }

  lemma RuleOfPrefix(short: string, line: string)
    requires short <= line && RuleLine(line) && RuleRun(line) <= |short|
    ensures RuleLine(short)
  {
    var n := RuleRun(line);
    RuleRunIs(short, n);
    forall k | n <= k < |short| ensures IsSpace(short[k]) {
      assert line[n..][k - n] == short[k];
    }
  }

  lemma RuleRunOfLine(s: string)
    requires RuleLine(LineOf(s))
    ensures RuleRun(s) == RuleRun(LineOf(s))
  {
    var n := RuleRun(LineOf(s));
    RuleRunIs(s, n);
  }

  lemma ShortRule(s: string, m: nat)
    requires m <= |s| && RuleLine(LineOf(s)) && RuleRun(s) <= m
    ensures RuleLine(LineOf(s[..m]))
  {
    ShorterLine(s, m);
    RuleRunOfLine(s);
    RuleOfPrefix(LineOf(s[..m]), LineOf(s));
  }

  /** The first line of a prefix is that line, or all of the prefix. */
  lemma ShorterLine(s: string, m: nat)
    requires m <= |s|
    ensures var short, line := LineOf(s[..m]), LineOf(s);
            short <= line && (short == line || short == s[..m])
  {
    if LineEnd(s[..m]) < m {
      assert LineEnd(s) == LineEnd(s[..m]);
    }
  }

  lemma ShortKey(s: string, m: nat)
    requires m <= |s| && KeyLength(LineOf(s)) > 0
    ensures KeyLength(LineOf(s[..m])) > 0 <==> m > KeyLength(LineOf(s))
  {
    ShorterLine(s, m);
    var short, line := LineOf(s[..m]), LineOf(s);
    if m > KeyLength(line) {
      assert |short| > KeyLength(line);
      KeyOfPrefix(short, line);
    } else if KeyLength(short) > 0 {
      SameKey(short, line);
    }
  }

  lemma KeyOfPrefix(short: string, line: string)
    requires short <= line && KeyLength(line) > 0 && |short| > KeyLength(line)
    ensures KeyLength(short) > 0
  {
  }

  lemma SameKey(short: string, line: string)
    requires short <= line && KeyLength(short) > 0
    ensures KeyLength(short) == KeyLength(line) && |short| > KeyLength(short)
  {
  }

  lemma KeyIsNoRule(line: string)
    requires KeyLength(line) > 0
    ensures !RuleLine(line)
  {
  }

  lemma KeyPrefixIsNoRule(s: string, m: nat)
    requires m <= |s| && KeyLength(LineOf(s)) > 0
    ensures !RuleLine(LineOf(s[..m]))
  {
    ShorterLine(s, m);
    var short, line := LineOf(s[..m]), LineOf(s);
    assert short != "" ==> short[0] == line[0];
  }

  /** The end that is trimmed off starts after `k` exactly when something other
      than white space stands there. */
  lemma TrimmedPast(t: string, k: nat)
    requires k <= |t|
    ensures |TrimEnd(t)| > k <==> exists c <- t[k..] :: !IsSpace(c)
  {
    var m := |TrimEnd(t)|;
    TrimEndIsPrefix(t);
    TrimEndCut(t);
    if m > k {
      assert t[k..][m - 1 - k] == t[m - 1];
    } else {
      forall c <- t[k..] ensures IsSpace(c) {
        var i :| 0 <= i < |t[k..]| && t[k..][i] == c;
        assert t[m..][k + i - m] == c;
      }
    }
  }

  lemma LastOfRule(t: string, k: nat)
    requires k < |t| && t[k] == '\U{2500}'
    ensures exists c <- t[k..] :: !IsSpace(c)
  {
    var c := t[k..][0];
    assert c in t[k..] && !IsSpace(c);
  }

  lemma RuleSurvives(t: string)
    requires RuleLine(LineOf(t))
    ensures RuleRun(t) <= |TrimEnd(t)|
  {
    RuleRunOfLine(t);
    TrimmedPast(t, RuleRun(t) - 1);
    LastOfRule(t, RuleRun(t) - 1);
  }

  lemma TrimEndKey(t: string)
    requires KeyLength(LineOf(t)) > 0
    ensures Matches(LineOf(TrimEnd(t))) <==> !BareKey(t)
  {
    var m := |TrimEnd(t)|;
    TrimEndIsPrefix(t);
    ShortKey(t, m);
    KeyPrefixIsNoRule(t, m);
    TrimmedPast(t, KeyLength(LineOf(t)));
  }

  lemma TrimEndRule(t: string)
    requires RuleLine(LineOf(t))
    ensures Matches(LineOf(TrimEnd(t)))
  {
    TrimEndIsPrefix(t);
    RuleSurvives(t);
    ShortRule(t, |TrimEnd(t)|);
  }

  /** Trimming the end leaves a match at the start, unless a bare key is left. */
  lemma TrimEndMatch(t: string)
    ensures Matches(LineOf(TrimEnd(t))) <==> Matches(LineOf(t)) && !BareKey(t)
  {
    if KeyLength(LineOf(t)) > 0 {
      TrimEndKey(t);
    } else if RuleLine(LineOf(t)) {
      TrimEndRule(t);
    } else {
      TrimEndIsPrefix(t);
      TrimEndCut(t);
      if Matches(LineOf(TrimEnd(t))) {
        SpacesKeepMatch(t, |TrimEnd(t)|);
      }
    }
  }

  /** Main result: no line of the result but its first can match, and a second
      pass changes it exactly when the first text left is an indented line that
      would match, other than a bare key: trimming brings it to the start. */
  lemma FallbackSettles(raw: string)
    ensures Unmarked(Fallback(raw), false)
    ensures Fallback(Fallback(raw)) != Fallback(raw) <==> Resurfaces(Blanked(raw, true))
  {
    var s := Blanked(raw, true);
    FallbackUnmarked(raw);
    TrimIsTrimmed(s);
    SettledText(Fallback(raw));
    UnmarkedFromStart(Fallback(raw));
    TrimStartRun(s);
    TrimEndMatch(s[SpaceRun(s)..]);
    BlankedUnmarked(raw, true);
    if Matches(LineOf(s[SpaceRun(s)..])) {
      OnlyIndentedMatch(s, SpaceRun(s));
    }
  }

  lemma {:induction false} OneLineStays(s: string)
    requires '\n' !in s
    ensures Unmarked(s, false)
  {
    if s == "" {
    } else {
      assert s[0] in s && forall c <- s[1..] :: c in s;
      OneLineStays(s[1..]);
    }
  }

  const PLAIN := "model: x"
  const INDENTED := " model: x"

  lemma SpaceStartsNoMatch(line: string)
    requires line != "" && line[0] == ' '
    ensures !Matches(line)
  {
  }

  lemma IndentedStays()
    ensures Blanked(INDENTED, true) == INDENTED
  {
    assert '\n' !in INDENTED[1..];
    OneLineStays(INDENTED[1..]);
    SpaceStartsNoMatch(LineOf(INDENTED));
    UnmarkedKept(INDENTED, true);
  }

  lemma IndentedTrims()
    ensures Trim(INDENTED) == PLAIN
  {
    assert INDENTED[1..] == PLAIN;
    assert TrimStart(PLAIN) == PLAIN && TrimStart(INDENTED) == PLAIN;
  }

  lemma PlainIsKeyLine()
    ensures KeyLength(LineOf(PLAIN)) == 6 && LineEnd(PLAIN[7..]) == |PLAIN[7..]|
  {
    assert '\n' !in PLAIN;
    assert LineEnd(PLAIN) == |PLAIN| && LineOf(PLAIN) == PLAIN;
    assert PLAIN[..6] == "model:" && PLAIN[6] == ' ' && PLAIN[7..] == "x";
  }

  lemma PlainGoes()
    ensures Fallback(PLAIN) == ""
  {
    PlainIsKeyLine();
    assert MatchLength(PLAIN) == |PLAIN|;
    assert PLAIN[|PLAIN|..] == "";
  }

  /** An indented metadata line is kept by the first pass and lost by the second. */
  lemma IndentedResurfaces()
    ensures Fallback(INDENTED) == PLAIN && Fallback(Fallback(INDENTED)) == ""
  {
    IndentedStays();
    IndentedTrims();
    PlainGoes();
  }
}
