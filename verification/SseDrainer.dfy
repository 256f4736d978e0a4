/** Draining `data: ` lines from a stream that arrives in arbitrary chunks. */
module SseDrainer {
  import opened Text

  const MARK := "data: "

  predicate OccursAt(s: string, pattern: string, i: nat) {
    i + |pattern| <= |s| && s[i..i + |pattern|] == pattern
  }

  lemma OccursShifted(s: string, pattern: string, k: nat)
    requires s != ""
    ensures OccursAt(s, pattern, k + 1) <==> OccursAt(s[1..], pattern, k)
  {
    if k + 1 + |pattern| <= |s| {
      assert s[k + 1..k + 1 + |pattern|] == s[1..][k..k + |pattern|];
    }
  }

  /** `str::find`. */
  function Find(s: string, pattern: string): (r: Option<nat>)
    ensures r.Some? ==> r.value + |pattern| <= |s|
    decreases |s|
  {
    if OccursAt(s, pattern, 0) then Some(0)
    else if s == "" then None
    else
      var later := Find(s[1..], pattern);
      if later.None? then None else Some(later.value + 1)
  }

  /** It finds the first occurrence, if there is one. */
  lemma {:induction false} FindIsFirst(s: string, pattern: string)
    ensures var r := Find(s, pattern);
            && (r.Some? ==> OccursAt(s, pattern, r.value) && forall k | 0 <= k < r.value :: !OccursAt(s, pattern, k))
            && (r.None? ==> forall k: nat :: !OccursAt(s, pattern, k))
    decreases |s|
  {
    if OccursAt(s, pattern, 0) {
    } else if s == "" {
    } else {
      FindIsFirst(s[1..], pattern);
      forall k: nat | k > 0 ensures OccursAt(s, pattern, k) <==> OccursAt(s[1..], pattern, k - 1) {
        OccursShifted(s, pattern, k - 1);
      }
    }
  }

  lemma FoundAt(s: string, pattern: string, i: nat)
    requires OccursAt(s, pattern, i) && forall k | 0 <= k < i :: !OccursAt(s, pattern, k)
    ensures Find(s, pattern) == Some(i)
  {
    FindIsFirst(s, pattern);
  }

  /** The position of the first line feed. */
  function FindLineFeed(s: string): (r: Option<nat>)
    ensures r.Some? ==> r.value < |s|
  {
    if s == "" then None
    else if s[0] == '\n' then Some(0)
    else
      var later := FindLineFeed(s[1..]);
      if later.None? then None else Some(later.value + 1)
  }

  lemma {:induction false} LineFeedAt(line: string, more: string)
    requires '\n' !in line
    ensures FindLineFeed(line + ("\n" + more)) == Some(|line|)
  {
    var s := line + ("\n" + more);
    if line == "" {
      assert s == "\n" + more;
    } else {
      assert s[1..] == line[1..] + ("\n" + more);
      LineFeedAt(line[1..], more);
    }
  }

  lemma {:induction false} LineFeedInPrefix(a: string, b: string)
    requires FindLineFeed(a).Some?
    ensures FindLineFeed(a + b) == FindLineFeed(a)
  {
    if a[0] == '\n' {
    } else {
      assert (a + b)[1..] == a[1..] + b;
      LineFeedInPrefix(a[1..], b);
    }
  }

  /** The first complete record of the buffer and what follows it; none while
      the marker or the end of its line is still missing. */
  function FirstRecord(buffer: string): (r: Option<(string, string)>)
    ensures r.Some? ==> |r.value.1| < |buffer|
  {
    var start := Find(buffer, MARK);
    if start.None? then None
    else
      var body := buffer[start.value + |MARK|..];
      var end := FindLineFeed(body);
      if end.None? then None else Some((Trim(body[..end.value]), body[end.value + 1..]))
  }

  datatype Drained = Drained(records: seq<string>, rest: string)

  function Drain(buffer: string): Drained
    decreases |buffer|
  {
    var first := FirstRecord(buffer);
    if first.None? then Drained([], buffer)
    else
      var more := Drain(first.value.1);
      Drained([first.value.0] + more.records, more.rest)
  }

  lemma DrainTakes(buffer: string, record: string, rest: string)
    requires FirstRecord(buffer) == Some((record, rest))
    ensures Drain(buffer) == Drained([record] + Drain(rest).records, Drain(rest).rest)
  {
  }

  function Concat(chunks: seq<string>): string {
    if chunks == [] then "" else Concat(chunks[..|chunks| - 1]) + chunks[|chunks| - 1]
  }

  /** Records that do not parse as events are passed over. */
  function Messages(records: seq<string>, decode: string -> Option<string>): seq<string> {
    if records == [] then []
    else
      var rest := Messages(records[..|records| - 1], decode);
      var m := decode(records[|records| - 1]);
      if m.None? then rest else rest + [m.value]
  }

  lemma FindInPrefix(a: string, b: string, pattern: string)
    requires Find(a, pattern).Some?
    ensures Find(a + b, pattern) == Find(a, pattern)
  {
    var i := Find(a, pattern).value;
    FindIsFirst(a, pattern);
    assert (a + b)[i..i + |pattern|] == a[i..i + |pattern|];
    forall k | 0 <= k < i ensures !OccursAt(a + b, pattern, k) {
      assert !OccursAt(a, pattern, k);
      assert (a + b)[k..k + |pattern|] == a[k..k + |pattern|];
    }
    FoundAt(a + b, pattern, i);
  }

  lemma SuffixAfter(a: string, b: string, n: nat)
    requires n <= |a|
    ensures (a + b)[..n] == a[..n] && (a + b)[n..] == a[n..] + b
  {
  }

  lemma RecordInPrefix(a: string, b: string)
    requires FirstRecord(a).Some?
    ensures FirstRecord(a + b) == Some((FirstRecord(a).value.0, FirstRecord(a).value.1 + b))
  {
    var start := Find(a, MARK).value + |MARK|;
    FindInPrefix(a, b, MARK);
    SuffixAfter(a, b, start);
    var end := FindLineFeed(a[start..]).value;
    LineFeedInPrefix(a[start..], b);
    SuffixAfter(a[start..], b, end);
    SuffixAfter(a[start..], b, end + 1);
  }

  lemma DrainAppends(a: string, b: string, record: string, rest: string)
    requires FirstRecord(a) == Some((record, rest))
    ensures Drain(a) == Drained([record] + Drain(rest).records, Drain(rest).rest)
    ensures Drain(a + b) == Drained([record] + Drain(rest + b).records, Drain(rest + b).rest)
  {
    RecordInPrefix(a, b);
    DrainTakes(a, record, rest);
    DrainTakes(a + b, record, rest + b);
  }

  lemma Prepends(record: string, early: Drained, late: Drained)
    ensures Drained([record] + (early.records + late.records), late.rest)
            == Drained(([record] + early.records) + late.records, late.rest)
  {
  }

  /** Draining early loses nothing and splits nothing. */
  lemma {:induction false} DrainInTwo(a: string, b: string)
    ensures var early := Drain(a);
            var late := Drain(early.rest + b);
            Drain(a + b) == Drained(early.records + late.records, late.rest)
    decreases |a|
  {
    var first := FirstRecord(a);
    if first.Some? {
      var record, rest := first.value.0, first.value.1;
      DrainAppends(a, b, record, rest);
      DrainInTwo(rest, b);
      Prepends(record, Drain(rest), Drain(Drain(rest).rest + b));
    }
  }

  lemma {:induction false} MessagesSplit(a: seq<string>, b: seq<string>, decode: string -> Option<string>)
    ensures Messages(a + b, decode) == Messages(a, decode) + Messages(b, decode)
  {
    if b == [] {
      assert a + b == a;
    } else {
      assert (a + b)[..|a + b| - 1] == a + b[..|b| - 1];
      MessagesSplit(a, b[..|b| - 1], decode);
    }
  }

  /** `records` have been taken out of the buffer and `rest` is left to drain. */
  ghost predicate Underway(buffer: string, records: seq<string>, rest: string) {
    Drain(buffer) == Drained(records + Drain(rest).records, Drain(rest).rest)
  }

  lemma GoesOn(buffer: string, records: seq<string>, rest: string, record: string, after: string)
    requires Underway(buffer, records, rest) && FirstRecord(rest) == Some((record, after))
    ensures Underway(buffer, records + [record], after)
  {
    DrainTakes(rest, record, after);
    Associates(records, [record], Drain(after).records);
  }

  lemma Ends(buffer: string, records: seq<string>, rest: string)
    requires Underway(buffer, records, rest) && FirstRecord(rest).None?
    ensures Drain(buffer) == Drained(records, rest)
  {
    assert records + [] == records;
  }

  lemma OneMessageMore(records: seq<string>, record: string, decode: string -> Option<string>)
    ensures var m := decode(record);
            Messages(records + [record], decode) ==
            Messages(records, decode) + if m.Some? then [m.value] else []
  {
    assert (records + [record])[..|records|] == records;
  }

  /** One turn of the inner loop, on positions within the buffer. */
  method TakeRecord(buffer: string) returns (r: Option<(string, string)>)
    ensures r == FirstRecord(buffer)
  {
    var start := Find(buffer, MARK);
    if start.None? {
      return None;
    }
    var restStart := start.value + |MARK|;
    var newline := FindLineFeed(buffer[restStart..]);
    if newline.None? {
      return None;
    }
    var lineEnd := restStart + newline.value;
    assert buffer[restStart..][..newline.value] == buffer[restStart..lineEnd];
    assert buffer[restStart..][newline.value + 1..] == buffer[lineEnd + 1..];
    return Some((Trim(buffer[restStart..lineEnd]), buffer[lineEnd + 1..]));
  }

  /** The inner loop: sends every complete record and re-slices the buffer. */
  method DrainBuffer(buffer: string, decode: string -> Option<string>) returns (sent: seq<string>, rest: string)
    ensures sent == Messages(Drain(buffer).records, decode)
    ensures rest == Drain(buffer).rest
  {
    sent, rest := [], buffer;
    ghost var records := [];
    var taken := TakeRecord(rest);
    while taken.Some?
      invariant taken == FirstRecord(rest)
      invariant Underway(buffer, records, rest)
      invariant sent == Messages(records, decode)
      decreases |rest|
    {
      var (json, after) := taken.value;
      GoesOn(buffer, records, rest, json, after);
      OneMessageMore(records, json, decode);
      records := records + [json];
      var message := decode(json);
      if message.Some? {
        sent := sent + [message.value];
      }
      rest := after;
      taken := TakeRecord(rest);
    }
    Ends(buffer, records, rest);
  }

  /** What is sent and kept when the buffer is drained after every chunk. */
  function Feed(chunks: seq<string>): Drained {
    if chunks == [] then Drained([], "")
    else
      var before := Feed(chunks[..|chunks| - 1]);
      var now := Drain(before.rest + chunks[|chunks| - 1]);
      Drained(before.records + now.records, now.rest)
  }

  /** Main result: however a stream is cut into chunks, the records and the
      text kept for later are those of the whole stream drained at once. */
  lemma {:induction false} ChunkingInvariance(chunks: seq<string>)
    ensures Feed(chunks) == Drain(Concat(chunks))
  {
    if chunks == [] {
      assert Drain("") == Drained([], "");
    } else {
      ChunkingInvariance(chunks[..|chunks| - 1]);
      DrainInTwo(Concat(chunks[..|chunks| - 1]), chunks[|chunks| - 1]);
    }
  }

  /** The listener, one connection long. */
  method Listen(chunks: seq<string>, decode: string -> Option<string>) returns (sent: seq<string>, buffer: string)
    ensures sent == Messages(Drain(Concat(chunks)).records, decode)
    ensures buffer == Drain(Concat(chunks)).rest
  {
    sent, buffer := [], "";
    for i := 0 to |chunks|
      invariant sent == Messages(Feed(chunks[..i]).records, decode)
      invariant buffer == Feed(chunks[..i]).rest
    {
      assert chunks[..i + 1][..i] == chunks[..i];
      MessagesSplit(Feed(chunks[..i]).records, Drain(buffer + chunks[i]).records, decode);
      var more, rest := DrainBuffer(buffer + chunks[i], decode);
      sent := sent + more;
      buffer := rest;
    }
    assert chunks[..|chunks|] == chunks;
    ChunkingInvariance(chunks);
  }

  // What a well-formed stream drains to

  /** One event: other lines before it, then its data line. */
  datatype Block = Block(noise: string, payload: string)

  ghost predicate WellFormed(b: Block) {
    Find(b.noise + MARK, MARK) == Some(|b.noise|) && '\n' !in b.payload
  }

  function Printed(b: Block): string {
    b.noise + MARK + b.payload + "\n"
  }

  function Render(blocks: seq<Block>): string {
    if blocks == [] then "" else Printed(blocks[0]) + Render(blocks[1..])
  }

  function Payloads(blocks: seq<Block>): seq<string> {
    if blocks == [] then [] else [Trim(blocks[0].payload)] + Payloads(blocks[1..])
  }

  lemma BlockIsFirstRecord(b: Block, more: string)
    requires WellFormed(b)
    ensures FirstRecord(Printed(b) + more) == Some((Trim(b.payload), more))
  {
    var head, body := b.noise + MARK, b.payload + ("\n" + more);
    assert Printed(b) + more == head + body;
    FindInPrefix(head, body, MARK);
    assert (head + body)[|head|..] == body;
    LineFeedAt(b.payload, more);
    assert body[..|b.payload|] == b.payload && body[|b.payload| + 1..] == more;
  }

  /** Every data line comes out once, in order, trimmed, and what follows the
      blocks is drained as if it stood alone. */
  lemma {:induction false} RenderedDrains(blocks: seq<Block>, tail: string)
    requires forall b <- blocks :: WellFormed(b)
    ensures Drain(Render(blocks) + tail) == Drained(Payloads(blocks) + Drain(tail).records, Drain(tail).rest)
  {
    if blocks == [] {
      assert Render(blocks) + tail == tail;
    } else {
      var b, more := blocks[0], Render(blocks[1..]) + tail;
      assert b in blocks && forall c <- blocks[1..] :: c in blocks;
      RenderedDrains(blocks[1..], tail);
      RenderHead(blocks, tail);
      BlockDrains(b, more);
      PayloadsHead(blocks, Drain(tail).records);
    }
  }

  lemma RenderHead(blocks: seq<Block>, tail: string)
    requires blocks != []
    ensures Render(blocks) + tail == Printed(blocks[0]) + (Render(blocks[1..]) + tail)
  {
    Associates(Printed(blocks[0]), Render(blocks[1..]), tail);
  }

  lemma PayloadsHead(blocks: seq<Block>, records: seq<string>)
    requires blocks != []
    ensures Payloads(blocks) + records == [Trim(blocks[0].payload)] + (Payloads(blocks[1..]) + records)
  {
    Associates([Trim(blocks[0].payload)], Payloads(blocks[1..]), records);
  }

  lemma Associates<T>(a: seq<T>, b: seq<T>, c: seq<T>)
    ensures (a + b) + c == a + (b + c)
  {
  }

  lemma BlockDrains(b: Block, more: string)
    requires WellFormed(b)
    ensures Drain(Printed(b) + more) == Drained([Trim(b.payload)] + Drain(more).records, Drain(more).rest)
  {
    BlockIsFirstRecord(b, more);
    DrainTakes(Printed(b) + more, Trim(b.payload), more);
  }

  // The literal stream

  lemma DataMarks(payload: string)
    requires '\n' !in payload
    ensures WellFormed(Block("", payload)) && Printed(Block("", payload)) == "data: " + payload + "\n"
  {
    assert "" + MARK == "data: ";
    assert OccursAt("data: ", "data: ", 0);
  }

  /** A data line is one record, trimmed, and draining goes on after it. */
  lemma DataLine(payload: string, more: string)
    requires '\n' !in payload
    ensures Drain("data: " + payload + "\n" + more) == Drained([Trim(payload)] + Drain(more).records, Drain(more).rest)
  {
    DataMarks(payload);
    BlockDrains(Block("", payload), more);
  }

  /** Text without the mark is kept for later, and so is a line not yet ended. */
  lemma OpenLine(payload: string)
    requires '\n' !in payload
    ensures Drain("data: " + payload) == Drained([], "data: " + payload)
    ensures Drain("data:x\n") == Drained([], "data:x\n")
  {
    var s := "data: " + payload;
    assert OccursAt(s, "data: ", 0);
    assert s[6..] == payload;
    NoLineFeed(payload);
    NoSpaceNoMark();
  }

  lemma NoSpaceNoMark()
    ensures Drain("data:x\n") == Drained([], "data:x\n")
  {
    assert "data:x\n"[0..6][5] == 'x' && "data:x\n"[1..7][0] == 'a' && "data: "[5] == ' ' && "data: "[0] == 'd';
    FindIsFirst("data:x\n", "data: ");
  }

  lemma {:induction false} NoLineFeed(s: string)
    requires '\n' !in s
    ensures FindLineFeed(s).None?
  {
    if s == "" {
    } else {
      assert s[0] in s && forall c <- s[1..] :: c in s;
      NoLineFeed(s[1..]);
    }
  }

  const ONE := Block("", "one")
  const TWO := Block("\n", "two ")

  lemma PrintedOnes()
    ensures Printed(ONE) == "data: one\n" && Printed(TWO) == "\ndata: two \n"
  {
    assert "" + MARK + "one" + "\n" == "data: one\n";
    assert "\n" + MARK + "two " + "\n" == "\ndata: two \n";
  }

  lemma GlueOnes()
    ensures "data: one\n" + ("\ndata: two \n" + "\n") == "data: one\n\ndata: two \n\n"
  {
  }

  lemma DrainLast()
    ensures Drain(Printed(TWO) + "\n") == Drained(["two"], "\n")
  {
    MarkAfterBlank();
    BlockDrains(TWO, "\n");
    WordsTrim();
    NoMark();
  }

  lemma DrainOnes()
    ensures Drain(Printed(ONE) + (Printed(TWO) + "\n")) == Drained(["one", "two"], "\n")
  {
    DataMarks("one");
    BlockDrains(ONE, Printed(TWO) + "\n");
    WordsTrim();
    DrainLast();
  }

  /** Two events, each with a blank line after it. */
  lemma TwoEvents()
    ensures Drain("data: one\n\ndata: two \n\n") == Drained(["one", "two"], "\n")
  {
    PrintedOnes();
    GlueOnes();
    DrainOnes();
  }

  lemma MarkAfterBlank()
    ensures WellFormed(Block("\n", "two "))
  {
    assert "\n" + MARK == "\ndata: ";
    assert "\ndata: "[0..6][0] == '\n' && "\ndata: "[1..7] == "data: ";
    FoundAt("\ndata: ", "data: ", 1);
  }

  lemma WordsTrim()
    ensures Trim("one") == "one" && Trim("two ") == "two"
  {
    assert "two "[..3] == "two" && TrimEnd("two") == "two";
  }

  lemma NoMark()
    ensures Drain("\n") == Drained([], "\n")
  {
    FindIsFirst("\n", "data: ");
  }
}
