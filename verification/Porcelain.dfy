/** Reading back `git worktree list --porcelain`. */
module Porcelain {
  import opened Lines
  import opened Text

  datatype Worktree = Worktree(path: string, branch: string, head: string)

  const WORKTREE := "worktree "
  const HEAD := "HEAD "
  const BRANCH := "branch "
  const REFS := "refs/heads/"

  datatype Parser = Parser(path: Option<string>, head: string, branch: string, trees: seq<Worktree>)

  const FRESH := Parser(None, "", "", [])

  function ShortBranch(ref: string): string {
    if REFS <= ref then ref[|REFS|..] else ref
  }

  function EndBlock(p: Parser): seq<Worktree> {
    if p.path.None? then p.trees else p.trees + [Worktree(p.path.value, p.branch, p.head)]
  }

  function ReadLine(p: Parser, line: string): Parser {
    if line == "" then Parser(None, "", "", EndBlock(p))
    else if WORKTREE <= line then p.(path := Some(line[|WORKTREE|..]))
    else if HEAD <= line then p.(head := line[|HEAD|..])
    else if BRANCH <= line then p.(branch := ShortBranch(line[|BRANCH|..]))
    else p
  }

  function ReadLines(p: Parser, lines: seq<string>): Parser {
    if lines == [] then p else ReadLine(ReadLines(p, lines[..|lines| - 1]), lines[|lines| - 1])
  }

  function Parse(stdout: string): seq<Worktree> {
    EndBlock(ReadLines(FRESH, SplitLines(stdout)))
  }

  method ListWorktrees(stdout: string) returns (worktrees: seq<Worktree>)
    ensures worktrees == Parse(stdout)
  {
    worktrees := [];
    var currentPath: Option<string> := None;
    var currentHead, currentBranch := "", "";
    var lines := SplitLines(stdout);
    for i := 0 to |lines|
      invariant Parser(currentPath, currentHead, currentBranch, worktrees) == ReadLines(FRESH, lines[..i])
    {
      assert lines[..i + 1][..i] == lines[..i];
      var line := lines[i];
      if line == "" {
        if currentPath.Some? {
          worktrees := worktrees + [Worktree(currentPath.value, currentBranch, currentHead)];
        }
        currentPath, currentHead, currentBranch := None, "", "";
      } else if WORKTREE <= line {
        currentPath := Some(line[|WORKTREE|..]);
      } else if HEAD <= line {
        currentHead := line[|HEAD|..];
      } else if BRANCH <= line {
        currentBranch := ShortBranch(line[|BRANCH|..]);
      }
    }
    assert lines[..|lines|] == lines;
    if currentPath.Some? {
      worktrees := worktrees + [Worktree(currentPath.value, currentBranch, currentHead)];
    }
  }

  // What git prints

  predicate Unrecognised(line: string) {
    line != "" && !(WORKTREE <= line) && !(HEAD <= line) && !(BRANCH <= line)
  }

  /** A worktree with other attribute lines between the three that matter. */
  datatype Entry = Entry(tree: Worktree, others: seq<string>, more: seq<string>, rest: seq<string>)

  ghost predicate Printable(e: Entry) {
    && OneLine(e.tree.path) && OneLine(e.tree.head) && OneLine(e.tree.branch)
    && forall l <- e.others + e.more + e.rest :: Unrecognised(l) && OneLine(l)
  }

  function BranchLine(branch: string): string {
    if branch == "" then "detached" else BRANCH + REFS + branch
  }

  /** The lines of one block, without the blank line that ends it. */
  function BlockLines(e: Entry): seq<string> {
    [WORKTREE + e.tree.path] + e.others + [HEAD + e.tree.head] + e.more + [BranchLine(e.tree.branch)] + e.rest
  }

  function Print(entries: seq<Entry>): seq<string>
    decreases |entries|, 1
  {
    if entries == [] then [] else PrintOpen(entries) + [""]
  }

  /** A listing that stops before the blank line of its last block. */
  function PrintOpen(entries: seq<Entry>): seq<string>
    requires entries != []
    decreases |entries|, 0
  {
    Print(entries[..|entries| - 1]) + BlockLines(entries[|entries| - 1])
  }

  function Trees(entries: seq<Entry>): seq<Worktree> {
    seq(|entries|, i requires 0 <= i < |entries| => entries[i].tree)
  }

  lemma {:induction false} ReadSplit(p: Parser, a: seq<string>, b: seq<string>)
    ensures ReadLines(p, a + b) == ReadLines(ReadLines(p, a), b)
  {
    if b == [] {
      assert a + b == a;
    } else {
      assert (a + b)[..|a + b| - 1] == a + b[..|b| - 1];
      ReadSplit(p, a, b[..|b| - 1]);
    }
  }

  lemma ReadOne(p: Parser, line: string)
    ensures ReadLines(p, [line]) == ReadLine(p, line)
  {
    assert [line][..0] == [];
  }

  lemma {:induction false} UnrecognisedSkipped(p: Parser, lines: seq<string>)
    requires forall l <- lines :: Unrecognised(l)
    ensures ReadLines(p, lines) == p
  {
    if lines == [] {
    } else {
      assert lines[|lines| - 1] in lines && forall l <- lines[..|lines| - 1] :: l in lines;
      UnrecognisedSkipped(p, lines[..|lines| - 1]);
    }
  }

  lemma ReadThenSkip(p: Parser, before: seq<string>, line: string, others: seq<string>)
    requires forall l <- others :: Unrecognised(l)
    ensures ReadLines(p, before + [line] + others) == ReadLine(ReadLines(p, before), line)
  {
    ReadSplit(p, before + [line], others);
    ReadSplit(p, before, [line]);
    ReadOne(ReadLines(p, before), line);
    UnrecognisedSkipped(ReadLines(p, before + [line]), others);
  }

  lemma ReadBranch(p: Parser, branch: string)
    requires p.branch == ""
    ensures ReadLine(p, BranchLine(branch)) == p.(branch := branch)
  {
    if branch != "" {
      var line := BRANCH + REFS + branch;
      assert line[|BRANCH|..] == REFS + branch;
      assert line[0] == 'b' && WORKTREE[0] == 'w' && HEAD[0] == 'H';
    } else {
      assert "detached"[0] == 'd' && WORKTREE[0] == 'w' && HEAD[0] == 'H' && BRANCH[0] == 'b';
    }
  }

  lemma ReadBlock(e: Entry, trees: seq<Worktree>)
    requires Printable(e)
    ensures ReadLines(Parser(None, "", "", trees), BlockLines(e))
            == Parser(Some(e.tree.path), e.tree.head, e.tree.branch, trees)
  {
    var p := Parser(None, "", "", trees);
    assert forall l <- e.others :: l in e.others + e.more + e.rest;
    assert forall l <- e.more :: l in e.others + e.more + e.rest;
    assert forall l <- e.rest :: l in e.others + e.more + e.rest;
    var one := [WORKTREE + e.tree.path] + e.others;
    ReadThenSkip(p, [], WORKTREE + e.tree.path, e.others);
    assert [] + [WORKTREE + e.tree.path] + e.others == one;
    ReadThenSkip(p, one, HEAD + e.tree.head, e.more);
    assert (HEAD + e.tree.head)[0] == 'H' && WORKTREE[0] == 'w';
    var two := one + [HEAD + e.tree.head] + e.more;
    ReadThenSkip(p, two, BranchLine(e.tree.branch), e.rest);
    ReadBranch(ReadLines(p, two), e.tree.branch);
    assert BlockLines(e) == two + [BranchLine(e.tree.branch)] + e.rest;
  }

  lemma {:induction false} ReadPrinted(entries: seq<Entry>)
    requires forall e <- entries :: Printable(e)
    ensures ReadLines(FRESH, Print(entries)) == Parser(None, "", "", Trees(entries))
    decreases |entries|, 1
  {
    if entries != [] {
      ReadOpen(entries);
      ReadSplit(FRESH, PrintOpen(entries), [""]);
      ReadOne(ReadLines(FRESH, PrintOpen(entries)), "");
    }
  }

  /** At the end of the last block its worktree is only waiting to be pushed. */
  lemma {:induction false} ReadOpen(entries: seq<Entry>)
    requires entries != [] && forall e <- entries :: Printable(e)
    ensures EndBlock(ReadLines(FRESH, PrintOpen(entries))) == Trees(entries)
    decreases |entries|, 0
  {
    var rest, e := entries[..|entries| - 1], entries[|entries| - 1];
    assert e in entries && forall x <- rest :: x in entries;
    ReadPrinted(rest);
    ReadSplit(FRESH, Print(rest), BlockLines(e));
    ReadBlock(e, Trees(rest));
    assert Trees(entries) == Trees(rest) + [e.tree];
  }

  lemma BlockOneLines(e: Entry)
    requires Printable(e)
    ensures forall l <- BlockLines(e) :: OneLine(l)
    ensures BlockLines(e)[|BlockLines(e)| - 1] != ""
  {
    forall l <- BlockLines(e) ensures OneLine(l) {
      assert l in e.others + e.more + e.rest || l == WORKTREE + e.tree.path || l == HEAD + e.tree.head
          || l == BranchLine(e.tree.branch);
    }
    assert e.rest != [] ==> e.rest[|e.rest| - 1] in e.others + e.more + e.rest;
  }

  lemma {:induction false} PrintOneLines(entries: seq<Entry>)
    requires forall e <- entries :: Printable(e)
    ensures forall l <- Print(entries) :: OneLine(l)
  {
    if entries == [] {
    } else {
      var rest, e := entries[..|entries| - 1], entries[|entries| - 1];
      assert e in entries && forall x <- rest :: x in entries;
      PrintOneLines(rest);
      BlockOneLines(e);
      assert forall l <- Print(entries) :: l in Print(rest) || l in BlockLines(e) || l == "";
    }
  }

  /** Main result: parsing what was printed gives the same paths, heads and
      branches in order, with or without the final blank line and its line
      feed, whatever other lines the blocks contain. */
  lemma RoundTrip(entries: seq<Entry>)
    requires forall e <- entries :: Printable(e)
    ensures Parse(Unlines(Print(entries))) == Trees(entries)
    ensures entries != [] ==> Parse(Join(PrintOpen(entries))) == Trees(entries)
  {
    PrintOneLines(entries);
    SplitUnlines(Print(entries));
    ReadPrinted(entries);
    if entries != [] {
      SplitOpen(entries);
      ReadOpen(entries);
    }
  }

  lemma SplitOpen(entries: seq<Entry>)
    requires entries != [] && forall e <- entries :: Printable(e)
    ensures SplitLines(Join(PrintOpen(entries))) == PrintOpen(entries)
  {
    var lines, e := PrintOpen(entries), entries[|entries| - 1];
    assert e in entries;
    BlockOneLines(e);
    PrintOneLines(entries);
    assert lines[|lines| - 1] == BlockLines(e)[|BlockLines(e)| - 1];
    assert forall l <- lines :: l in Print(entries);
    SplitJoin(lines);
  }

  // The literal listing

  lemma OnePrinted(e: Entry)
    requires e.others == [] && e.more == [] && e.rest == []
    ensures Print([e]) == [WORKTREE + e.tree.path, HEAD + e.tree.head, BranchLine(e.tree.branch), ""]
    ensures Trees([e]) == [e.tree]
  {
    assert [e][..0] == [] && Print([]) == [];
  }

  lemma PrefixedBranch(branch: string)
    ensures BRANCH + REFS + branch == "branch refs/heads/" + branch
  {
  }

  /** One block as git prints it, for any path, commit and branch. */
  lemma LiteralBlock(path: string, head: string, branch: string)
    requires OneLine(path) && OneLine(head) && OneLine(branch) && branch != ""
    ensures Parse(Unlines(["worktree " + path, "HEAD " + head, "branch refs/heads/" + branch, ""]))
            == [Worktree(path, branch, head)]
  {
    var e := Entry(Worktree(path, branch, head), [], [], []);
    RoundTrip([e]);
    OnePrinted(e);
    PrefixedBranch(branch);
  }

  /** A detached worktree has no branch. */
  lemma DetachedBlock(path: string, head: string)
    requires OneLine(path) && OneLine(head)
    ensures Parse(Unlines(["worktree " + path, "HEAD " + head, "detached", ""])) == [Worktree(path, "", head)]
  {
    var e := Entry(Worktree(path, "", head), [], [], []);
    RoundTrip([e]);
    OnePrinted(e);
  }

  lemma Prefixed(p: string, text: string)
    ensures p <= p + text && (p + text)[|p|..] == text
  {
  }

  /** Each kind of line: the first three set their field, a blank one ends the
      block if it has a path, and any other line is passed over. */
  lemma LineLaw(p: Parser, text: string)
    ensures ReadLine(p, "worktree " + text) == p.(path := Some(text))
    ensures ReadLine(p, "HEAD " + text) == p.(head := text)
    ensures ReadLine(p, "") == Parser(None, "", "",
              if p.path.Some? then p.trees + [Worktree(p.path.value, p.branch, p.head)] else p.trees)
    ensures ReadLine(p, "bare") == p && ReadLine(p, "locked " + text) == p
  {
    Prefixed("worktree ", text);
    Prefixed("HEAD ", text);
    assert ("HEAD " + text)[0] == 'H' && ("locked " + text)[0] == 'l' && "bare"[1] == 'a';
  }

  lemma HeadsGlued(text: string)
    ensures "branch " + ("refs/heads/" + text) == "branch refs/heads/" + text
  {
  }

  lemma TagsGlued(text: string)
    ensures "branch " + ("refs/tags/" + text) == "branch refs/tags/" + text
  {
  }

  lemma TagsAreNoHeads(text: string)
    ensures ShortBranch("refs/tags/" + text) == "refs/tags/" + text
  {
    assert ("refs/tags/" + text)[5] == 't' && "refs/heads/"[5] == 'h';
  }

  /** The short name under refs/heads, and the full one elsewhere. */
  lemma BranchLaw(p: Parser, text: string)
    ensures ReadLine(p, "branch refs/heads/" + text) == p.(branch := text)
    ensures ReadLine(p, "branch refs/tags/" + text) == p.(branch := "refs/tags/" + text)
  {
    BranchRead(p, "refs/heads/" + text);
    BranchRead(p, "refs/tags/" + text);
    Prefixed("refs/heads/", text);
    TagsAreNoHeads(text);
    HeadsGlued(text);
    TagsGlued(text);
  }

  lemma BranchRead(p: Parser, ref: string)
    ensures ReadLine(p, "branch " + ref) == p.(branch := ShortBranch(ref))
  {
    Prefixed("branch ", ref);
    assert ("branch " + ref)[0] == 'b';
  }
}
