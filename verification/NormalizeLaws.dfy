/** What each stage of the normaliser takes out, told from the characters, and
    what the classification says of the input. */
module NormalizeLaws {
  import opened Text
  import opened Normalize

  // Escape sequences

  predicate Digit(c: char) {
    c == ';' || '0' <= c <= '9'
  }

  predicate AsciiLetter(c: char) {
    'A' <= c <= 'Z' || 'a' <= c <= 'z'
  }

  /** ESC, a bracket, digits and semicolons, and a letter. */
  predicate IsSequence(x: string) {
    && |x| >= 3 && x[0] == '\U{1B}' && x[1] == '[' && AsciiLetter(x[|x| - 1])
    && forall i | 2 <= i < |x| - 1 :: Digit(x[i])
  }

  lemma {:induction false} ParametersAre(s: string)
    ensures forall i | 0 <= i < Parameters(s) :: IsParameter(s[i])
    ensures Parameters(s) < |s| ==> !IsParameter(s[Parameters(s)])
  {
    if s != "" && IsParameter(s[0]) {
      ParametersAre(s[1..]);
      assert forall i | 0 < i < Parameters(s) :: s[i] == s[1..][i - 1];
    }
  }

  /** The length found is that of the one sequence the text starts with. */
  lemma LengthIsSequence(s: string, n: nat)
    requires n <= |s|
    ensures IsSequence(s[..n]) <==> n > 0 && EscapeLength(s) == n
  {
    if |s| >= 2 && s[0] == ESC && s[1] == '[' {
      var tail := s[2..];
      var m := Parameters(tail);
      ParametersAre(tail);
      SequenceLength(s, m, n);
    }
  }

  lemma SequenceLength(s: string, m: nat, n: nat)
    requires |s| >= 2 && s[0] == ESC && s[1] == '[' && n <= |s| && m == Parameters(s[2..])
    requires forall i | 0 <= i < m :: IsParameter(s[2..][i])
    requires m < |s[2..]| ==> !IsParameter(s[2..][m])
    ensures IsSequence(s[..n]) <==> n > 0 && EscapeLength(s) == n
  {
    assert forall i | 2 <= i < m + 2 :: s[i] == s[2..][i - 2];
    if IsSequence(s[..n]) {
      assert forall i | 2 <= i < n - 1 :: Digit(s[..n][i]) && s[i] == s[..n][i];
      assert IsLetter(s[n - 1]);
    }
  }

  /** The scan at one place: a sequence that starts there is taken out whole,
      and otherwise the character is kept, an ESC too. */
  lemma ScanLaw(s: string)
    requires s != ""
    ensures forall n | 0 <= n <= |s| && IsSequence(s[..n]) :: StripAnsi(s) == StripAnsi(s[n..])
    ensures (forall n | 0 <= n <= |s| :: !IsSequence(s[..n])) ==> StripAnsi(s) == [s[0]] + StripAnsi(s[1..])
  {
    forall n | 0 <= n <= |s| && IsSequence(s[..n]) ensures StripAnsi(s) == StripAnsi(s[n..]) {
      LengthIsSequence(s, n);
    }
    if EscapeLength(s) > 0 {
      LengthIsSequence(s, EscapeLength(s));
    }
  }

  lemma {:induction false} TextKept(piece: string, rest: string)
    requires '\U{1B}' !in piece
    ensures StripAnsi(piece + rest) == piece + StripAnsi(rest)
  {
    if piece == "" {
      assert piece + rest == rest;
    } else {
      var s := piece + rest;
      assert s[0] == piece[0] && piece[0] in piece && s[1..] == piece[1..] + rest;
      TextKept(piece[1..], rest);
      assert [piece[0]] + (piece[1..] + StripAnsi(rest)) == piece + StripAnsi(rest);
    }
  }

  lemma SequenceGoes(x: string, rest: string)
    requires IsSequence(x)
    ensures StripAnsi(x + rest) == StripAnsi(rest)
  {
    var s := x + rest;
    assert s[..|x|] == x && s[|x|..] == rest;
    ScanLaw(s);
  }

  /** Text pieces with an escape sequence after each but the last. */
  function Coloured(pieces: seq<string>, escapes: seq<string>): string
    requires |pieces| == |escapes| + 1
  {
    if escapes == [] then pieces[0] else pieces[0] + (escapes[0] + Coloured(pieces[1..], escapes[1..]))
  }

  function Joined(pieces: seq<string>): string {
    if pieces == [] then "" else pieces[0] + Joined(pieces[1..])
  }

  /** Main result: stripping coloured text returns exactly its pieces. */
  lemma {:induction false} ColoursGo(pieces: seq<string>, escapes: seq<string>)
    requires |pieces| == |escapes| + 1
    requires (forall p <- pieces :: '\U{1B}' !in p) && forall x <- escapes :: IsSequence(x)
    ensures StripAnsi(Coloured(pieces, escapes)) == Joined(pieces)
  {
    assert pieces[0] in pieces;
    if escapes == [] {
      TextKept(pieces[0], "");
      assert pieces[0] + "" == pieces[0] && Joined(pieces) == pieces[0] + Joined([]) == pieces[0];
    } else {
      var rest := Coloured(pieces[1..], escapes[1..]);
      assert escapes[0] in escapes && forall p <- pieces[1..] :: p in pieces;
      assert forall x <- escapes[1..] :: x in escapes;
      ColoursGo(pieces[1..], escapes[1..]);
      TextKept(pieces[0], escapes[0] + rest);
      SequenceGoes(escapes[0], rest);
    }
  }

  /** Carried through the whole normaliser, for text that needs nothing else. */
  lemma ColouredOutput(pieces: seq<string>, escapes: seq<string>, maxChars: nat)
    requires |pieces| == |escapes| + 1 && escapes != []
    requires (forall p <- pieces :: '\U{1B}' !in p) && forall x <- escapes :: IsSequence(x)
    requires var text := Joined(pieces); AllPlain(text) && Trimmed(text) && text != "" && Bytes(text) <= maxChars
    ensures var output := Normalized(Coloured(pieces, escapes), Default(maxChars));
            output.content == Joined(pieces) && output.kind == ControlCharsStripped
  {
    var raw, text := Coloured(pieces, escapes), Joined(pieces);
    ColoursGo(pieces, escapes);
    HasEscape(pieces, escapes);
    assert !Plain(ESC) && ESC !in text;
    OnlyStripped(raw, text, maxChars);
  }

  lemma StagesIdle(text: string)
    requires AllPlain(text) && Trimmed(text)
    ensures DropControls(text) == text && ToLf(text) == text && Trim(text) == text
  {
    PlainKept(text);
    PlainLf(text);
    TrimIsTrimmed(text);
  }

  lemma OnlyStripped(raw: string, text: string, maxChars: nat)
    requires StripAnsi(raw) == text && raw != text
    requires AllPlain(text) && Trimmed(text) && text != "" && Bytes(text) <= maxChars
    ensures Normalized(raw, Default(maxChars)).content == text
    ensures Normalized(raw, Default(maxChars)).kind == ControlCharsStripped
  {
    StagesIdle(text);
  }

  lemma HasEscape(pieces: seq<string>, escapes: seq<string>)
    requires |pieces| == |escapes| + 1 && escapes != [] && IsSequence(escapes[0])
    ensures ESC in Coloured(pieces, escapes)
  {
    var rest := Coloured(pieces[1..], escapes[1..]);
    assert (pieces[0] + (escapes[0] + rest))[|pieces[0]|] == escapes[0][0];
  }

  const RED := "\U{1B}[31m"
  const RESET := "\U{1B}[0m"

  lemma ThreePieces(a: string, e: string, b: string, f: string, c: string)
    ensures Coloured([a, b, c], [e, f]) == a + (e + (b + (f + c))) && Joined([a, b, c]) == a + (b + c)
  {
    assert [a, b, c][1..] == [b, c] && [e, f][1..] == [f] && [b, c][1..] == [c] && [f][1..] == [];
    assert Coloured([c], []) == c && Joined([c]) == c + "" && Joined([b, c]) == b + Joined([c]);
    assert Coloured([b, c], [f]) == b + (f + c);
  }

  lemma RedPieces()
    ensures Coloured(["", "r", ""], [RED, RESET]) == "\U{1B}[31mr\U{1B}[0m" && Joined(["", "r", ""]) == "r"
  {
    ThreePieces("", RED, "r", RESET, "");
    assert "" + (RED + ("r" + (RESET + ""))) == RED + ("r" + RESET) == "\U{1B}[31mr\U{1B}[0m";
  }

  /** A red letter comes out as the letter. */
  lemma RedLetter()
    ensures var output := Normalized("\U{1B}[31mr\U{1B}[0m", Default(10));
            output.content == "r" && output.kind == ControlCharsStripped
  {
    RedPieces();
    assert "r"[1..] == "" && Bytes("r") == 1;
    assert IsSequence(RED) && IsSequence(RESET);
    ColouredOutput(["", "r", ""], [RED, RESET], 10);
  }

  // Control characters

  /** Dropping goes character by character, and drops exactly the control
      characters other than tab, line feed and carriage return. */
  lemma {:induction false} ControlsLaw(a: string, b: string, c: char)
    ensures DropControls(a + b) == DropControls(a) + DropControls(b)
    ensures DropControls([c]) ==
            if (c < ' ' && c != '\t' && c != '\n' && c != '\r') || '\U{7F}' <= c <= '\U{9F}' then "" else [c]
  {
    assert [c][1..] == "";
    if a == "" {
      assert a + b == b;
    } else {
      assert (a + b)[1..] == a[1..] + b && (a + b)[0] == a[0];
      ControlsLaw(a[1..], b, c);
    }
  }

  // Line endings

  /** A carriage return with its line feed, or alone, becomes one line feed, and
      every other character stays. */
  lemma EndingsLaw(c: char, rest: string)
    ensures ToLf("\r\n" + rest) == "\n" + ToLf(rest)
    ensures rest == "" || rest[0] != '\n' ==> ToLf("\r" + rest) == "\n" + ToLf(rest)
    ensures c != '\r' ==> ToLf([c] + rest) == [c] + ToLf(rest)
    ensures ToLf("") == ""
  {
    assert ("\r\n" + rest)[2..] == rest && ("\r" + rest)[1..] == rest && ([c] + rest)[1..] == rest;
    OneEnding("\n", CrLfToLf(rest));
    OneEnding("\r", CrLfToLf(rest));
    OneEnding([c], CrLfToLf(rest));
  }

  lemma OneEnding(head: string, t: string)
    requires |head| == 1
    ensures CrToLf(head + t) == CrToLf(head) + CrToLf(t)
  {
  }

  // Lengths and flags

  /** Bytes of a text add up, and one character takes one to four. */
  lemma BytesLaw(a: string, b: string, c: char)
    ensures Bytes(a + b) == Bytes(a) + Bytes(b)
    ensures Bytes([c]) == if c <= '\U{7F}' then 1 else if c <= '\U{7FF}' then 2 else if c <= '\U{FFFF}' then 3 else 4
  {
    BytesSplit(a, b);
    assert [c][1..] == "";
  }

  /** Both lengths are in bytes, as 32 bits hold them. */
  lemma LengthsLaw(raw: string, p: Policy)
    ensures var output := Normalized(raw, p);
            && output.originalLength == Bytes(raw) % 0x1_0000_0000
            && output.finalLength == Bytes(output.content) % 0x1_0000_0000
            && (output.hasContent <==> output.content != "")
  {
  }

  /** Each flag turns its own stage on. */
  lemma FlagsLaw(raw: string, maxChars: nat)
    ensures Cleaned(raw, Policy(maxChars, false, false, false, false)) == raw
    ensures Cleaned(raw, Policy(maxChars, true, false, false, false)) == StripAnsi(raw)
    ensures Cleaned(raw, Policy(maxChars, false, true, false, false)) == ToLf(raw)
    ensures Cleaned(raw, Policy(maxChars, false, false, true, false)) == Trim(raw)
    ensures Cleaned(raw, Policy(maxChars, false, false, false, true)) == DropControls(raw)
  {
  }

  // The classification, under the default flags

  lemma CleanedEmpty(c: string, n: nat)
    ensures Take(c, n) == "" <==> c == "" || n == 0
    ensures Bytes(c) > n ==> c != ""
  {
  }

  /** Every class, in terms of the input: in this order of precedence. */
  lemma KindLaw(raw: string, maxChars: nat)
    ensures var kind := Normalized(raw, Default(maxChars)).kind;
            var c := Cleaned(raw, Default(maxChars));
            var fits := c != "" && maxChars > 0 && Bytes(c) <= maxChars;
            var plain := forall ch <- raw :: Kept(ch);
            && (kind == Empty <==> c == "" || maxChars == 0)
            && (kind == Truncated <==> Bytes(c) > maxChars > 0)
            && (kind == ControlCharsStripped <==> fits && !plain)
            && (kind == WhitespaceNormalized <==> fits && plain && !Trimmed(ToLf(raw)))
            && (kind == Clean <==> fits && plain && Trimmed(ToLf(raw)))
  {
    CleanedEmpty(Cleaned(raw, Default(maxChars)), maxChars);
    StrippedSomeIff(raw, maxChars);
    if !StrippedSome(raw, Default(maxChars)) {
      UnstrippedCleaned(raw, maxChars);
    }
  }
}
