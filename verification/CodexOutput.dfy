/** Cutting the answer out of codex exec's sectioned output. */
module CodexOutput {
  import opened CodexFallback
  import opened Lines
  import opened Text

  // Slices of a list, by a predicate on its elements.

  /** The first index that satisfies `p`, or the length. */
  function Position<T>(xs: seq<T>, p: T -> bool): (n: nat)
    ensures n <= |xs| && forall k | 0 <= k < n :: !p(xs[k])
    ensures n < |xs| ==> p(xs[n])
  {
    if xs == [] || p(xs[0]) then 0 else Position(xs[1..], p) + 1
  }

  function DropWhile<T>(xs: seq<T>, p: T -> bool): (r: seq<T>)
    ensures |r| <= |xs| && (r != [] ==> !p(r[0]))
  {
    if xs != [] && p(xs[0]) then DropWhile(xs[1..], p) else xs
  }

  function DropLastWhile<T>(xs: seq<T>, p: T -> bool): (r: seq<T>)
    ensures |r| <= |xs| && r == xs[..|r|] && (r != [] ==> !p(r[|r| - 1]))
  {
    if xs != [] && p(xs[|xs| - 1]) then DropLastWhile(xs[..|xs| - 1], p) else xs
  }

  lemma {:induction false} PositionAfter<T>(a: seq<T>, b: seq<T>, p: T -> bool)
    requires forall x <- a :: !p(x)
    ensures Position(a + b, p) == |a| + Position(b, p)
  {
    if a == [] {
      assert a + b == b;
    } else {
      assert a[0] in a && forall x <- a[1..] :: x in a;
      assert (a + b)[1..] == a[1..] + b;
      PositionAfter(a[1..], b, p);
    }
  }

  lemma {:induction false} DropLastTail<T>(a: seq<T>, b: seq<T>, p: T -> bool)
    requires forall x <- b :: p(x)
    ensures DropLastWhile(a + b, p) == DropLastWhile(a, p)
  {
    if b == [] {
      assert a + b == a;
    } else {
      assert b[|b| - 1] in b && forall x <- b[..|b| - 1] :: x in b;
      assert (a + b)[..|a + b| - 1] == a + b[..|b| - 1];
      DropLastTail(a, b[..|b| - 1], p);
    }
  }

  /** The elements up to the first that is `meta`, without rules at either end. */
  function SectionBy<T>(after: seq<T>, meta: T -> bool, rule: T -> bool): seq<T> {
    DropWhile(DropLastWhile(after[..Position(after, meta)], rule), rule)
  }

  /** The section after the first `head`, if there is one. */
  function SectionAfter<T>(xs: seq<T>, head: T -> bool, meta: T -> bool, rule: T -> bool): Option<seq<T>> {
    var h := Position(xs, head);
    if h == |xs| then None else Some(SectionBy(xs[h + 1..], meta, rule))
  }

  predicate FrameableBy<T(==)>(content: seq<T>, meta: T -> bool, rule: T -> bool) {
    && (forall x <- content :: !meta(x))
    && (content != [] ==> !rule(content[0]) && !rule(content[|content| - 1]))
  }

  lemma EndsStay<T>(content: seq<T>, rule: T -> bool)
    ensures DropWhile(DropLastWhile(content, rule), rule) == content
            <==> (content != [] ==> !rule(content[0]) && !rule(content[|content| - 1]))
  {
  }

  lemma FramePosition<T>(content: seq<T>, rules: seq<T>, metadata: T, rest: seq<T>, meta: T -> bool)
    requires meta(metadata) && (forall x <- rules :: !meta(x)) && forall x <- content :: !meta(x)
    ensures Position(content + rules + [metadata] + rest, meta) == |content| + |rules|
  {
    assert content + rules + [metadata] + rest == content + (rules + ([metadata] + rest));
    PositionAfter(content, rules + ([metadata] + rest), meta);
    PositionAfter(rules, [metadata] + rest, meta);
  }

  lemma SectionByFrame<T>(content: seq<T>, rules: seq<T>, metadata: T, rest: seq<T>, meta: T -> bool, rule: T -> bool)
    requires meta(metadata) && forall x <- rules :: rule(x) && !meta(x)
    ensures SectionBy(content + rules + [metadata] + rest, meta, rule) == content <==> FrameableBy(content, meta, rule)
  {
    var after := content + rules + [metadata] + rest;
    if forall x <- content :: !meta(x) {
      FramePosition(content, rules, metadata, rest, meta);
      assert after[..|content| + |rules|] == content + rules;
      DropLastTail(content, rules, rule);
      EndsStay(content, rule);
    } else {
      var k :| 0 <= k < |content| && meta(content[k]);
      assert after[k] == content[k];
    }
  }

  /** Cuts the section out by positions: forward to the first `meta`, back over
      trailing rules, then past leading ones. */
  method CutFrom<T>(xs: seq<T>, start: nat, meta: T -> bool, rule: T -> bool) returns (section: seq<T>)
    requires start <= |xs|
    ensures section == SectionBy(xs[start..], meta, rule)
  {
    var metadataStart := start + Position(xs[start..], meta);
    var contentEnd := metadataStart;
    while contentEnd > start && rule(xs[contentEnd - 1])
      invariant start <= contentEnd <= metadataStart
      invariant DropLastWhile(xs[start..contentEnd], rule) == DropLastWhile(xs[start..metadataStart], rule)
    {
      assert xs[start..contentEnd][..contentEnd - 1 - start] == xs[start..contentEnd - 1];
      contentEnd := contentEnd - 1;
    }
    assert xs[start..][..metadataStart - start] == xs[start..metadataStart];
    return DropWhile(xs[start..contentEnd], rule);
  }

  method CutSection<T>(xs: seq<T>, head: T -> bool, meta: T -> bool, rule: T -> bool)
    returns (section: Option<seq<T>>)
    ensures section == SectionAfter(xs, head, meta, rule)
  {
    var header := Position(xs, head);
    if header == |xs| {
      return None;
    }
    var content := CutFrom(xs, header + 1, meta, rule);
    return Some(content);
  }

  // The classes of lines

  function Lower(c: char): char {
    if 'A' <= c <= 'Z' then ('a' as int + (c as int - 'A' as int)) as char else c
  }

  function LowerCase(s: string): string {
    seq(|s|, i requires 0 <= i < |s| => Lower(s[i]))
  }

  predicate IsHeader(line: string) {
    LowerCase(Trim(line)) == "codex"
  }

  predicate IsMetadata(line: string) {
    var t := Trim(line);
    || StartsWith(t, "tokens used:") || StartsWith(t, "model:") || StartsWith(t, "provider:")
    || StartsWith(t, "session id:") || StartsWith(t, "duration:")
  }

  predicate IsRule(c: char) {
    c == '\U{2500}' || c == '-' || IsSpace(c)
  }

  predicate IsSeparator(line: string) {
    Trim(line) != "" && forall c <- Trim(line) :: IsRule(c)
  }

  lemma SeparatorIsNoMetadata(line: string)
    ensures !(IsSeparator(line) && IsMetadata(line))
  {
    var t := Trim(line);
    if t != "" {
      assert t[0] in t;
    }
  }

  /** The first section under a header, or, when no line is a header, the text
      without its metadata lines. */
  function Extract(raw: string): string {
    var section := SectionAfter(SplitLines(raw), IsHeader, IsMetadata, IsSeparator);
    if section.None? then Fallback(raw) else Join(section.value)
  }

  method ExtractContent(raw: string) returns (content: string)
    ensures content == Extract(raw)
  {
    var section := CutSection(SplitLines(raw), IsHeader, IsMetadata, IsSeparator);
    if section.Some? {
      return Join(section.value);
    }
    return Fallback(raw);
  }

  /** Contents that survive framing: no line looks like metadata and neither
      the first nor the last line is a rule. */
  predicate Frameable(content: seq<string>) {
    FrameableBy(content, IsMetadata, IsSeparator)
  }

  /** The section is the content exactly when the content is frameable. */
  lemma SectionOfFrame(content: seq<string>, rules: seq<string>, metadata: string, rest: seq<string>)
    requires (forall l <- rules :: IsSeparator(l)) && IsMetadata(metadata)
    ensures SectionBy(content + rules + [metadata] + rest, IsMetadata, IsSeparator) == content <==> Frameable(content)
  {
    forall l <- rules ensures !IsMetadata(l) {
      SeparatorIsNoMetadata(l);
    }
    SectionByFrame(content, rules, metadata, rest, IsMetadata, IsSeparator);
  }

  lemma HeaderFound<T>(before: seq<T>, header: T, after: seq<T>, p: T -> bool)
    requires p(header) && forall x <- before :: !p(x)
    ensures Position(before + [header] + after, p) == |before|
    ensures (before + [header] + after)[|before| + 1..] == after
  {
    assert before + [header] + after == before + ([header] + after);
    PositionAfter(before, [header] + after, p);
  }

  /** Main result: framing as rule, header, content, rules, metadata, and then
      extracting returns the content, joined by line feeds. */
  lemma FramingRoundTrip(before: seq<string>, header: string, content: seq<string>, rules: seq<string>,
                         metadata: string, rest: seq<string>)
    requires forall l <- before + [header] + (content + rules + [metadata] + rest) :: OneLine(l)
    requires (forall l <- before :: !IsHeader(l)) && IsHeader(header)
    requires (forall l <- rules :: IsSeparator(l)) && IsMetadata(metadata)
    requires Frameable(content)
    ensures Extract(Unlines(before + [header] + (content + rules + [metadata] + rest))) == Join(content)
  {
    var after := content + rules + [metadata] + rest;
    SplitUnlines(before + [header] + after);
    HeaderFound(before, header, after, IsHeader);
    SectionOfFrame(content, rules, metadata, rest);
  }
}
