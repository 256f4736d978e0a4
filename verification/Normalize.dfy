/** Normalisation of adapter output, and when it settles. */
module Normalize {
  import opened Text

  datatype Kind = Clean | WhitespaceNormalized | Truncated | Empty | ControlCharsStripped

  datatype Policy = Policy(maxChars: nat, stripAnsi: bool, normalizeLineEndings: bool, trim: bool, stripControls: bool)

  /** The default policy for a given budget. */
  function Default(maxChars: nat): Policy {
    Policy(maxChars, true, true, true, true)
  }

  datatype Output = Output(content: string, kind: Kind, originalLength: nat, finalLength: nat, hasContent: bool)

  /** Bytes of the character in UTF-8. */
  function CharBytes(c: char): nat {
    if c < '\U{80}' then 1 else if c < '\U{800}' then 2 else if c < '\U{10000}' then 3 else 4
  }

  /** `str::len`: the length in bytes. */
  function Bytes(s: string): (n: nat)
    ensures |s| <= n
  {
    if s == "" then 0 else CharBytes(s[0]) + Bytes(s[1..])
  }

  function AsU32(n: nat): nat {
    n % 0x1_0000_0000
  }

  // ANSI escapes: ESC [ parameters letter

  const ESC: char := '\U{1B}'

  predicate IsParameter(c: char) {
    '0' <= c <= '9' || c == ';'
  }

  predicate IsLetter(c: char) {
    'a' <= c <= 'z' || 'A' <= c <= 'Z'
  }

  function Parameters(s: string): (n: nat)
    ensures n <= |s|
  {
    if s != "" && IsParameter(s[0]) then Parameters(s[1..]) + 1 else 0
  }

  /** Length of the escape sequence `s` starts with, or 0. */
  function EscapeLength(s: string): (n: nat)
    ensures n <= |s| && (n > 0 ==> s[0] == ESC)
  {
    if |s| < 2 || s[0] != ESC || s[1] != '[' then 0
    else
      var n := 2 + Parameters(s[2..]);
      if n < |s| && IsLetter(s[n]) then n + 1 else 0
  }

  function StripAnsi(s: string): string
    decreases |s|
  {
    if s == "" then ""
    else if EscapeLength(s) > 0 then StripAnsi(s[EscapeLength(s)..])
    else [s[0]] + StripAnsi(s[1..])
  }

  // Control characters

  predicate IsControl(c: char) {
    c < ' ' || '\U{7F}' <= c <= '\U{9F}'
  }

  predicate Kept(c: char) {
    !IsControl(c) || c == '\n' || c == '\t' || c == '\r'
  }

  function DropControls(s: string): string {
    if s == "" then "" else (if Kept(s[0]) then [s[0]] else "") + DropControls(s[1..])
  }

  // Line endings

  function CrLfToLf(s: string): string
    decreases |s|
  {
    if s == "" then ""
    else if |s| >= 2 && s[0] == '\r' && s[1] == '\n' then "\n" + CrLfToLf(s[2..])
    else [s[0]] + CrLfToLf(s[1..])
  }

  function CrToLf(s: string): (r: string)
    ensures |r| == |s| && forall i | 0 <= i < |s| :: r[i] == if s[i] == '\r' then '\n' else s[i]
  {
    seq(|s|, i requires 0 <= i < |s| => if s[i] == '\r' then '\n' else s[i])
  }

  function ToLf(s: string): string {
    CrToLf(CrLfToLf(s))
  }

  function Take(s: string, n: nat): string {
    if |s| <= n then s else s[..n]
  }

  // The same in terms of what changed, not of how many bytes it took

  function Stripped(raw: string, p: Policy): string {
    var plain := if p.stripAnsi then StripAnsi(raw) else raw;
    if p.stripControls then DropControls(plain) else plain
  }

  function WithLf(raw: string, p: Policy): string {
    if p.normalizeLineEndings then ToLf(Stripped(raw, p)) else Stripped(raw, p)
  }

  /** Everything before the budget is applied. */
  function Cleaned(raw: string, p: Policy): string {
    if p.trim then Trim(WithLf(raw, p)) else WithLf(raw, p)
  }

  function KindOf(raw: string, p: Policy): Kind {
    if Take(Cleaned(raw, p), p.maxChars) == "" then Empty
    else if Bytes(Cleaned(raw, p)) > p.maxChars then Truncated
    else if StrippedSome(raw, p) then ControlCharsStripped
    else if Cleaned(raw, p) != WithLf(raw, p) then WhitespaceNormalized
    else Clean
  }

  predicate StrippedSome(raw: string, p: Policy) {
    || (p.stripAnsi && StripAnsi(raw) != raw)
    || (p.stripControls && Stripped(raw, p) != (if p.stripAnsi then StripAnsi(raw) else raw))
  }

  function Normalized(raw: string, p: Policy): Output {
    var c := Cleaned(raw, p);
    var content := if Bytes(c) > p.maxChars then Take(c, p.maxChars) else c;
    Output(content, KindOf(raw, p), AsU32(Bytes(raw)), AsU32(Bytes(content)), content != "")
  }

  // A stage changes the text exactly when it changes its length in bytes

  lemma {:induction false} BytesSplit(a: string, b: string)
    ensures Bytes(a + b) == Bytes(a) + Bytes(b)
  {
    if a == "" {
      assert a + b == b;
    } else {
      assert (a + b)[1..] == a[1..] + b;
      BytesSplit(a[1..], b);
    }
  }

  lemma SliceBytes(s: string, i: nat, j: nat)
    requires i <= j <= |s|
    ensures Bytes(s) == Bytes(s[..i]) + Bytes(s[i..j]) + Bytes(s[j..])
  {
    assert s[..j][..i] == s[..i];
    BytesCut(s[..j], i);
    BytesCut(s, j);
  }

  lemma BytesCut(s: string, i: nat)
    requires i <= |s|
    ensures Bytes(s) == Bytes(s[..i]) + Bytes(s[i..])
  {
    assert s == s[..i] + s[i..];
    BytesSplit(s[..i], s[i..]);
  }

  lemma {:induction false} StripsBytes(s: string)
    ensures Bytes(StripAnsi(s)) <= Bytes(s)
    ensures Bytes(StripAnsi(s)) == Bytes(s) <==> StripAnsi(s) == s
    decreases |s|
  {
    if s == "" {
    } else {
      var n := EscapeLength(s);
      if n > 0 {
        StripsBytes(s[n..]);
        SliceBytes(s, 0, n);
        assert s[0..n] != "" && s[..0] == "";
      } else {
        StripsBytes(s[1..]);
        HeadAndRest(s, StripAnsi(s[1..]));
      }
    }
  }

  lemma HeadAndRest(s: string, rest: string)
    requires s != ""
    ensures [s[0]] + rest == s <==> rest == s[1..]
    ensures Bytes([s[0]] + rest) == CharBytes(s[0]) + Bytes(rest)
  {
    assert ([s[0]] + rest)[1..] == rest && s == [s[0]] + s[1..];
  }

  lemma {:induction false} DropsBytes(s: string)
    ensures Bytes(DropControls(s)) <= Bytes(s)
    ensures Bytes(DropControls(s)) == Bytes(s) <==> DropControls(s) == s
  {
    if s == "" {
    } else {
      DropsBytes(s[1..]);
      HeadAndRest(s, DropControls(s[1..]));
      assert "" + DropControls(s[1..]) == DropControls(s[1..]);
    }
  }

  lemma TrimsBytes(s: string)
    ensures Bytes(Trim(s)) <= Bytes(s)
    ensures Bytes(Trim(s)) == Bytes(s) <==> Trim(s) == s
  {
    var i, j := TrimIsSlice(s);
    SliceBytes(s, i, j);
    assert i == 0 && j == |s| ==> s[i..j] == s;
  }

  // The stages, on a content and a kind that are reassigned

  method StripStages(raw: string, policy: Policy) returns (content: string, kind: Kind)
    ensures content == Stripped(raw, policy)
    ensures kind == if StrippedSome(raw, policy) then ControlCharsStripped else Clean
  {
    content, kind := raw, Clean;
    if policy.stripAnsi {
      StripsBytes(content);
      var before := Bytes(content);
      content := StripAnsi(content);
      if Bytes(content) != before && kind == Clean {
        kind := ControlCharsStripped;
      }
    }
    if policy.stripControls {
      DropsBytes(content);
      var before := Bytes(content);
      content := DropControls(content);
      if Bytes(content) != before {
        kind := ControlCharsStripped;
      }
    }
  }

  method TrimStage(text: string, kindSoFar: Kind, policy: Policy) returns (content: string, kind: Kind)
    ensures content == if policy.trim then Trim(text) else text
    ensures kind == if kindSoFar == Clean && content != text then WhitespaceNormalized else kindSoFar
  {
    content, kind := text, kindSoFar;
    if policy.trim {
      TrimsBytes(content);
      var trimmed := Trim(content);
      if Bytes(trimmed) != Bytes(content) && kind == Clean {
        kind := WhitespaceNormalized;
      }
      content := trimmed;
    }
  }

  /** Text and classification are those of the stages, decided by what each
      stage changed although the code compares byte lengths. */
  method NormalizeOutput(raw: string, policy: Policy) returns (output: Output)
    ensures output == Normalized(raw, policy)
  {
    var content, kind := StripStages(raw, policy);
    if policy.normalizeLineEndings {
      content := ToLf(content);
    }
    content, kind := TrimStage(content, kind, policy);
    if Bytes(content) > policy.maxChars {
      content := Take(content, policy.maxChars);
      kind := Truncated;
    }
    var hasContent := content != "";
    if !hasContent {
      kind := Empty;
    }
    return Output(content, kind, AsU32(Bytes(raw)), AsU32(Bytes(content)), hasContent);
  }

  // Settling, under the default flags and any budget

  /** Neither a control character that is stripped nor a carriage return. */
  predicate Plain(c: char) {
    Kept(c) && c != '\r'
  }

  predicate AllPlain(s: string) {
    forall c <- s :: Plain(c)
  }

  lemma {:induction false} PlainKept(s: string)
    requires forall c <- s :: Kept(c)
    ensures StripAnsi(s) == s && DropControls(s) == s
  {
    if s == "" {
    } else {
      assert s[0] in s && forall c <- s[1..] :: c in s;
      PlainKept(s[1..]);
      assert s == [s[0]] + s[1..];
    }
  }

  lemma {:induction false} PlainLf(s: string)
    requires AllPlain(s)
    ensures ToLf(s) == s
  {
    PlainCrLf(s);
    assert forall i | 0 <= i < |s| :: s[i] in s;
    assert CrToLf(s) == s;
  }

  lemma {:induction false} PlainCrLf(s: string)
    requires AllPlain(s)
    ensures CrLfToLf(s) == s
  {
    if s == "" {
    } else {
      assert s[0] in s && forall c <- s[1..] :: c in s;
      PlainCrLf(s[1..]);
      assert s == [s[0]] + s[1..];
    }
  }

  lemma {:induction false} DropsToKept(s: string)
    ensures forall c <- DropControls(s) :: Kept(c)
    ensures DropControls(s) == s <==> forall c <- s :: Kept(c)
  {
    if s == "" {
    } else {
      DropsToKept(s[1..]);
      DropsBytes(s);
      assert forall c <- s :: c == s[0] || c in s[1..];
      if Kept(s[0]) {
        HeadAndRest(s, DropControls(s[1..]));
      } else {
        DropsBytes(s[1..]);
        assert "" + DropControls(s[1..]) == DropControls(s[1..]);
      }
    }
  }

  lemma {:induction false} CrLfKept(s: string)
    requires forall c <- s :: Kept(c)
    ensures forall c <- CrLfToLf(s) :: Kept(c)
    decreases |s|
  {
    if s == "" {
    } else {
      assert s[0] in s;
      if |s| >= 2 && s[0] == '\r' && s[1] == '\n' {
        assert forall c <- s[2..] :: c in s;
        CrLfKept(s[2..]);
      } else {
        assert forall c <- s[1..] :: c in s;
        CrLfKept(s[1..]);
      }
    }
  }

  lemma LfPlain(s: string)
    requires forall c <- s :: Kept(c)
    ensures AllPlain(ToLf(s))
  {
    CrLfKept(s);
    var t, u := CrLfToLf(s), ToLf(s);
    forall c <- u ensures Plain(c) {
      var i :| 0 <= i < |u| && u[i] == c;
      assert t[i] in t;
    }
  }

  lemma CleanedIsPlain(raw: string, maxChars: nat)
    ensures AllPlain(WithLf(raw, Default(maxChars)))
    ensures AllPlain(Cleaned(raw, Default(maxChars))) && Trimmed(Cleaned(raw, Default(maxChars)))
  {
    DropsToKept(StripAnsi(raw));
    LfPlain(Stripped(raw, Default(maxChars)));
    TrimIsTrimmed(WithLf(raw, Default(maxChars)));
    TrimKeepsChars(WithLf(raw, Default(maxChars)));
  }

  /** Cleaning text without control characters is trimming it. */
  lemma PlainCleaned(s: string, maxChars: nat)
    requires AllPlain(s)
    ensures WithLf(s, Default(maxChars)) == s && Cleaned(s, Default(maxChars)) == Trim(s)
    ensures !StrippedSome(s, Default(maxChars))
  {
    PlainKept(s);
    PlainLf(s);
  }

  lemma CutIsPlain(s: string, n: nat)
    requires AllPlain(s)
    ensures AllPlain(Take(s, n)) && |Take(s, n)| <= n
  {
    assert forall c <- Take(s, n) :: c in s;
  }

  /** The budget is kept in characters, and what comes out is plain text. */
  lemma WithinBudget(raw: string, maxChars: nat)
    ensures var content := Normalized(raw, Default(maxChars)).content;
            |content| <= maxChars && AllPlain(content)
  {
    CleanedIsPlain(raw, maxChars);
    CutIsPlain(Cleaned(raw, Default(maxChars)), maxChars);
  }

  lemma PlainPass(s: string, maxChars: nat)
    requires AllPlain(s) && |s| <= maxChars
    ensures Normalized(s, Default(maxChars)).content == Trim(s)
  {
    PlainCleaned(s, maxChars);
    TrimIsTrimmed(s);
  }

  /** The first pass keeps the cleaned text up to the budget. */
  lemma ContentIsTake(raw: string, p: Policy)
    ensures Normalized(raw, p).content == Take(Cleaned(raw, p), p.maxChars)
  {
  }

  /** The budget falls just after a white space inside the cleaned text. */
  predicate CutsAtSpace(raw: string, maxChars: nat) {
    var c := Cleaned(raw, Default(maxChars));
    0 < maxChars < |c| && IsSpace(c[maxChars - 1])
  }

  lemma TakeTrimmed(c: string, n: nat)
    requires Trimmed(c)
    ensures !Trimmed(Take(c, n)) <==> 0 < n < |c| && IsSpace(c[n - 1])
  {
  }

  lemma FirstPass(raw: string, maxChars: nat)
    ensures !Trimmed(Normalized(raw, Default(maxChars)).content) <==> CutsAtSpace(raw, maxChars)
  {
    CleanedIsPlain(raw, maxChars);
    ContentIsTake(raw, Default(maxChars));
    TakeTrimmed(Cleaned(raw, Default(maxChars)), maxChars);
  }

  lemma TrimPlain(s: string)
    requires AllPlain(s)
    ensures AllPlain(Trim(s))
  {
    TrimKeepsChars(s);
  }

  lemma IdlePass(s: string, maxChars: nat)
    requires AllPlain(s) && |s| <= maxChars && Trimmed(s)
    ensures Normalized(s, Default(maxChars)).content == s
  {
    TrimIsTrimmed(s);
    PlainPass(s, maxChars);
  }

  /** On text that a pass has produced, a pass is a trim, and then it is idle. */
  lemma NextPasses(once: string, maxChars: nat)
    requires AllPlain(once) && |once| <= maxChars
    ensures Normalized(once, Default(maxChars)).content == Trim(once)
    ensures Normalized(Trim(once), Default(maxChars)).content == Trim(once)
    ensures Trim(once) != once <==> !Trimmed(once)
  {
    PlainPass(once, maxChars);
    TrimPlain(once);
    TrimIsTrimmed(once);
    IdlePass(Trim(once), maxChars);
  }

  /** Main result: a second pass changes the text exactly when the first one cut
      it just after a white space, and after two passes it is settled. */
  lemma Settles(raw: string, maxChars: nat)
    ensures var once := Normalized(raw, Default(maxChars)).content;
            var twice := Normalized(once, Default(maxChars)).content;
            && (twice != once <==> CutsAtSpace(raw, maxChars))
            && Normalized(twice, Default(maxChars)).content == twice
  {
    WithinBudget(raw, maxChars);
    FirstPass(raw, maxChars);
    NextPasses(Normalized(raw, Default(maxChars)).content, maxChars);
  }

  lemma UncutIsTrimmed(raw: string, maxChars: nat)
    ensures var once := Normalized(raw, Default(maxChars));
            once.kind != Truncated ==> Trimmed(once.content) && Bytes(once.content) <= maxChars
  {
    CleanedIsPlain(raw, maxChars);
  }

  lemma PlainKind(s: string, maxChars: nat)
    requires AllPlain(s) && Trimmed(s) && Bytes(s) <= maxChars
    ensures Normalized(s, Default(maxChars)).kind == if s == "" then Empty else Clean
  {
    PlainCleaned(s, maxChars);
    TrimIsTrimmed(s);
  }

  lemma IdleOnPlain(s: string, maxChars: nat)
    requires AllPlain(s) && Trimmed(s) && |s| <= maxChars && Bytes(s) <= maxChars
    ensures Normalized(s, Default(maxChars)).content == s
    ensures Normalized(s, Default(maxChars)).kind == if s == "" then Empty else Clean
  {
    NextPasses(s, maxChars);
    PlainKind(s, maxChars);
  }

  /** Unless the first pass truncated, a second one changes nothing and finds
      nothing to report. */
  lemma SecondPassIdle(raw: string, maxChars: nat)
    ensures var once := Normalized(raw, Default(maxChars));
            var twice := Normalized(once.content, Default(maxChars));
            once.kind != Truncated ==>
              twice.content == once.content && twice.kind == if once.hasContent then Clean else Empty
  {
    UncutIsTrimmed(raw, maxChars);
    WithinBudget(raw, maxChars);
    if Normalized(raw, Default(maxChars)).kind != Truncated {
      IdleOnPlain(Normalized(raw, Default(maxChars)).content, maxChars);
    }
  }

  /** Clean means clean: exactly when nothing but line endings had to change. */
  lemma CleanMeansUntouched(raw: string, maxChars: nat)
    ensures Normalized(raw, Default(maxChars)).kind == Clean <==>
            (forall c <- raw :: Kept(c)) && Trimmed(ToLf(raw)) && ToLf(raw) != "" && Bytes(ToLf(raw)) <= maxChars
    ensures Normalized(raw, Default(maxChars)).kind == Clean ==> Normalized(raw, Default(maxChars)).content == ToLf(raw)
  {
    StrippedSomeIff(raw, maxChars);
    CleanIff(raw, Default(maxChars));
    if !StrippedSome(raw, Default(maxChars)) {
      UnstrippedCleaned(raw, maxChars);
    }
  }

  /** How `Clean` is reached, stage by stage. */
  lemma CleanIff(raw: string, p: Policy)
    ensures Normalized(raw, p).kind == Clean <==>
            !StrippedSome(raw, p) && Cleaned(raw, p) == WithLf(raw, p) && Cleaned(raw, p) != ""
            && Bytes(Cleaned(raw, p)) <= p.maxChars
  {
  }

  lemma UnstrippedCleaned(raw: string, maxChars: nat)
    requires Stripped(raw, Default(maxChars)) == raw
    ensures WithLf(raw, Default(maxChars)) == ToLf(raw)
    ensures Cleaned(raw, Default(maxChars)) == ToLf(raw) <==> Trimmed(ToLf(raw))
  {
    TrimIsTrimmed(ToLf(raw));
  }

  lemma StrippedSomeIff(raw: string, maxChars: nat)
    ensures !StrippedSome(raw, Default(maxChars)) <==> forall c <- raw :: Kept(c)
    ensures !StrippedSome(raw, Default(maxChars)) ==> Stripped(raw, Default(maxChars)) == raw
  {
    DropsToKept(StripAnsi(raw));
    DropsToKept(raw);
    if forall c <- raw :: Kept(c) {
      PlainKept(raw);
    }
  }

  /** `Truncated` compares bytes with a budget in characters: text is reported
      as truncated although no character was cut exactly when it fits in
      characters but not in bytes. */
  lemma TruncatedButWhole(raw: string, p: Policy)
    ensures Normalized(raw, p).kind == Truncated && Normalized(raw, p).content == Cleaned(raw, p)
            <==> |Cleaned(raw, p)| <= p.maxChars < Bytes(Cleaned(raw, p))
  {
  }

  // Inputs that meet the failing conditions

  /** A budget of two characters cuts this text after its space; the next pass
      trims the space. */
  lemma CutAtSpace()
    ensures Normalized("a b", Default(2)).content == "a "
    ensures Normalized("a ", Default(2)).content == "a"
  {
    var s := "a b";
    assert forall i | 0 <= i < 3 :: Plain(s[i]);
    assert AllPlain(s);
    PlainCleaned(s, 2);
    assert Trimmed(s);
    TrimIsTrimmed(s);
    ContentIsTake(s, Default(2));
    assert Take(s, 2) == "a ";
    assert AllPlain("a ") by {
      assert forall i | 0 <= i < 2 :: Plain("a "[i]);
    }
    PlainPass("a ", 2);
    TrimmedPrefix();
  }

  lemma TrimmedPrefix()
    ensures Trim("a ") == "a"
  {
    assert "a "[..1] == "a" && "a "[1] == ' ' && TrimEnd("a") == "a";
  }

  /** One character of two bytes fits a budget of one, uncut, and is reported as
      truncated. */
  lemma WholeButTruncated()
    ensures var output := Normalized("\U{E9}", Default(1));
            output.kind == Truncated && output.content == "\U{E9}"
  {
    var s := "\U{E9}";
    assert AllPlain(s) && Trimmed(s);
    PlainCleaned(s, 1);
    TrimIsTrimmed(s);
    assert Bytes(s) == 2 by {
      assert s[1..] == "";
    }
    TruncatedButWhole(s, Default(1));
  }
}
