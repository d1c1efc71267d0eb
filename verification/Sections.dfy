/** The heading splitter. A document is given as its lines. */
module Sections {
  import opened Options
  import opened Text
  import opened Tokens

  // ---------------------------------------------------------------- headings

  datatype Heading = Heading(level: nat, text: string)

  function Hashes(line: string): nat {
    if line != "" && line[0] == '#' then Hashes(line[1..]) + 1 else 0
  }

  /** A match of the heading pattern: one to six `#`, a blank, and at least one more character. */
  function HeadingOf(line: string): (h: Option<Heading>)
    ensures h.Some? ==> 1 <= h.value.level <= 6
  {
    var n := Hashes(line);
    if 1 <= n <= 6 && n + 2 <= |line| && IsSpace(line[n]) then Some(Heading(n, Strip(line[n + 1..]))) else None
  }

  lemma {:induction false} HashesAre(line: string)
    ensures var n := Hashes(line); n <= |line| && (forall i :: 0 <= i < n ==> line[i] == '#') && (n < |line| ==> line[n] != '#')
  {
    if line != "" && line[0] == '#' {
      HashesAre(line[1..]);
      assert forall i :: 0 < i < |line| ==> line[i] == line[1..][i - 1];
    }
  }

  /** A line is a heading of level n exactly when it starts with n of one to six `#`, a blank follows, and at least
      one more character after that; its text is the stripped rest. */
  lemma HeadingExactly(line: string, n: nat, text: string)
    ensures HeadingOf(line) == Some(Heading(n, text)) <==>
      && 1 <= n <= 6 && n + 2 <= |line| && (forall i :: 0 <= i < n ==> line[i] == '#')
      && line[n] != '#' && IsSpace(line[n]) && text == Strip(line[n + 1..])
  {
    HashesAre(line);
    hide Hashes, Strip, IsSpace;
    var m := Hashes(line);
    assert n < m && n < |line| ==> line[n] == '#';
    assert m < n <= |line| && m < |line| ==> line[m] != '#';
  }

  function Headings(lines: seq<string>): seq<Heading> {
    if lines == [] then []
    else
      var n := |lines| - 1;
      Headings(lines[..n]) + match HeadingOf(lines[n]) case None => [] case Some(h) => [h]
  }

  /** `headings[level - 1:] = [text]`. */
  function Put(stack: seq<string>, h: Heading): seq<string> {
    (if 0 < h.level <= |stack| then stack[..h.level - 1] else stack) + [h.text]
  }

  function Stack(hs: seq<Heading>): seq<string> {
    if hs == [] then [] else Put(Stack(hs[..|hs| - 1]), hs[|hs| - 1])
  }

  // ---------------------------------------------------------------- the splitting loop

  datatype Section = Section(path: seq<string>, body: string)

  datatype Block = Block(path: seq<string>, lines: seq<string>)

  /** The lines before the first heading, then each heading with the lines up to the next one. */
  function Blocks(lines: seq<string>, fallback: string): (bs: seq<Block>)
    ensures bs != []
  {
    if lines == [] then [Block([fallback], [])]
    else
      var n := |lines| - 1;
      var before := Blocks(lines[..n], fallback);
      if HeadingOf(lines[n]).Some? then before + [Block(Stack(Headings(lines)), [lines[n]])]
      else before[|before| - 1 := Block(before[|before| - 1].path, before[|before| - 1].lines + [lines[n]])]
  }

  function Body(lines: seq<string>): string { Strip(Join('\n', lines)) }

  function Flushed(b: Block): seq<Section> {
    if Body(b.lines) == "" then [] else [Section(b.path, Body(b.lines))]
  }

  function Kept(bs: seq<Block>): seq<Section> {
    if bs == [] then [] else Kept(bs[..|bs| - 1]) + Flushed(bs[|bs| - 1])
  }

  /** `_sections`. */
  method SplitSections(lines: seq<string>, fallback: string) returns (sections: seq<Section>)
    ensures sections == Kept(Blocks(lines, fallback))
  {
    hide Strip, HeadingOf, Body, Blocks, Stack, Headings, Kept;
    var headings: seq<string> := [];
    var currentPath := [fallback];
    var currentLines: seq<string> := [];
    sections := [];
    ghost var done: seq<Block> := [];
    NoLines(fallback);
    for i := 0 to |lines|
      invariant Blocks(lines[..i], fallback) == done + [Block(currentPath, currentLines)]
      invariant sections == Kept(done)
      invariant headings == Stack(Headings(lines[..i]))
    {
      LineStep(lines, i, fallback, done, currentPath, currentLines);
      var heading := HeadingOf(lines[i]);
      if heading.None? {
        currentLines := currentLines + [lines[i]];
      } else {
        var body := Body(currentLines);
        if body != "" {
          sections := sections + [Section(currentPath, body)];
        }
        KeptStep(done, Block(currentPath, currentLines));
        done := done + [Block(currentPath, currentLines)];
        var keep := heading.value.level - 1;
        assert headings[..|headings|] == headings;
        headings := headings[..if keep <= |headings| then keep else |headings|] + [heading.value.text];
        currentPath := headings;
        currentLines := [lines[i]];
      }
    }
    assert lines[..|lines|] == lines;
    var body := Body(currentLines);
    if body != "" {
      sections := sections + [Section(currentPath, body)];
    }
    KeptStep(done, Block(currentPath, currentLines));
  }

  lemma NoLines(fallback: string)
    ensures Blocks([], fallback) == [] + [Block([fallback], [])] && Stack(Headings([])) == [] && Kept([]) == []
  {
  }

  lemma KeptStep(bs: seq<Block>, b: Block)
    ensures Kept(bs + [b]) == Kept(bs) + if Body(b.lines) == "" then [] else [Section(b.path, Body(b.lines))]
  {
    assert (bs + [b])[..|bs|] == bs;
  }

  /** What one more line does to the last block and to the heading stack. */
  lemma LineStep(lines: seq<string>, i: nat, fallback: string, done: seq<Block>, path: seq<string>, current: seq<string>)
    requires i < |lines| && Blocks(lines[..i], fallback) == done + [Block(path, current)]
    ensures var h := HeadingOf(lines[i]);
      if h.None? then
        Stack(Headings(lines[..i + 1])) == Stack(Headings(lines[..i]))
        && Blocks(lines[..i + 1], fallback) == done + [Block(path, current + [lines[i]])]
      else
        Stack(Headings(lines[..i + 1])) == Put(Stack(Headings(lines[..i])), h.value)
        && Blocks(lines[..i + 1], fallback) == done + [Block(path, current)] + [Block(Put(Stack(Headings(lines[..i])), h.value), [lines[i]])]
  {
    hide HeadingOf;
    assert lines[..i + 1][..i] == lines[..i];
    StackStep(lines[..i + 1]);
    hide Stack, Headings;
  }

  lemma StackStep(lines: seq<string>)
    requires lines != []
    ensures var before, h := Stack(Headings(lines[..|lines| - 1])), HeadingOf(lines[|lines| - 1]);
      Stack(Headings(lines)) == if h.None? then before else Put(before, h.value)
  {
    hide HeadingOf;
    var hs, h := Headings(lines[..|lines| - 1]), HeadingOf(lines[|lines| - 1]);
    if h.Some? {
      assert (hs + [h.value])[..|hs|] == hs;
    } else {
      assert hs + [] == hs;
    }
  }

  // ---------------------------------------------------------------- nothing but blank blocks is dropped

  function AllLines(bs: seq<Block>): seq<string> {
    if bs == [] then [] else AllLines(bs[..|bs| - 1]) + bs[|bs| - 1].lines
  }

  /** The blocks put every line in exactly one place, in order. */
  lemma {:induction false} BlocksPartition(lines: seq<string>, fallback: string)
    ensures AllLines(Blocks(lines, fallback)) == lines
  {
    hide HeadingOf;
    if lines != [] {
      var n := |lines| - 1;
      BlocksPartition(lines[..n], fallback);
      var before, after := Blocks(lines[..n], fallback), Blocks(lines, fallback);
      var m := |before| - 1;
      if HeadingOf(lines[n]).Some? {
        assert after[..m + 1] == before;
      } else {
        assert after[..m] == before[..m];
        assert AllLines(before[..m]) + (before[m].lines + [lines[n]]) == AllLines(before) + [lines[n]];
      }
      assert lines == lines[..n] + [lines[n]];
    }
  }

  predicate Blank(s: string) { forall i :: 0 <= i < |s| ==> IsSpace(s[i]) }

  lemma StripBlank(s: string)
    ensures Strip(s) == "" <==> Blank(s)
  {
    if FirstInk(s) == |s| {
      assert Blank(s);
    } else {
      assert !IsSpace(s[FirstInk(s)]);
      assert InkEnd(s) > FirstInk(s);
    }
  }

  lemma {:induction false} JoinBlank(lines: seq<string>)
    ensures Blank(Join('\n', lines)) <==> forall i :: 0 <= i < |lines| ==> Blank(lines[i])
  {
    if |lines| > 1 {
      var rest := Join('\n', lines[1..]);
      JoinBlank(lines[1..]);
      BlankConcat(lines[0] + ['\n'], rest);
      BlankConcat(lines[0], ['\n']);
      assert forall i :: 0 < i < |lines| ==> lines[i] == lines[1..][i - 1];
      if forall i :: 0 <= i < |lines[1..]| ==> Blank(lines[1..][i]) {
        assert forall i :: 0 < i < |lines| ==> Blank(lines[i]);
      }
    }
  }

  lemma BlankConcat(x: string, y: string)
    ensures Blank(x + y) <==> Blank(x) && Blank(y)
  {
    hide IsSpace;
    if Blank(x + y) {
      assert forall i :: 0 <= i < |x| ==> (x + y)[i] == x[i];
      assert forall i :: 0 <= i < |y| ==> (x + y)[|x| + i] == y[i];
    }
  }

  /** A block is dropped exactly when all its lines are blank; a kept one gives its path and stripped text. */
  lemma DroppedAreBlank(b: Block)
    ensures Flushed(b) == [] <==> forall i :: 0 <= i < |b.lines| ==> Blank(b.lines[i])
    ensures Flushed(b) == [] || Flushed(b) == [Section(b.path, Body(b.lines))]
  {
    StripBlank(Join('\n', b.lines));
    JoinBlank(b.lines);
  }

  // ---------------------------------------------------------------- section paths

  /** Heading `j` encloses the last one, or is it: nothing after `j` is as shallow as `j`. */
  predicate Encloses(hs: seq<Heading>, j: nat) {
    j < |hs| && forall k :: j < k < |hs| ==> hs[k].level > hs[j].level
  }

  /** Those of the first `n` headings that enclose the last one, outermost first. */
  function EnclosingAmong(hs: seq<Heading>, n: nat): seq<Heading>
    requires n <= |hs|
  {
    if n == 0 then [] else EnclosingAmong(hs, n - 1) + if Encloses(hs, n - 1) then [hs[n - 1]] else []
  }

  function Chain(hs: seq<Heading>): seq<Heading> { EnclosingAmong(hs, |hs|) }

  function Texts(hs: seq<Heading>): (r: seq<string>)
    ensures |r| == |hs| && forall i :: 0 <= i < |r| ==> r[i] == hs[i].text
  {
    seq(|hs|, i requires 0 <= i < |hs| => hs[i].text)
  }

  predicate Levelled(hs: seq<Heading>) { forall i :: 0 <= i < |hs| ==> hs[i].level >= 1 }

  function Shallower(c: seq<Heading>, level: nat): seq<Heading> {
    if c == [] then []
    else Shallower(c[..|c| - 1], level) + if c[|c| - 1].level < level then [c[|c| - 1]] else []
  }

  lemma {:induction false} EnclosingStep(hs: seq<Heading>, h: Heading, n: nat)
    requires n <= |hs|
    ensures EnclosingAmong(hs + [h], n) == Shallower(EnclosingAmong(hs, n), h.level)
  {
    if n > 0 {
      EnclosingStep(hs, h, n - 1);
      StillEncloses(hs, h, n - 1);
      hide Encloses, Shallower;
      var c := EnclosingAmong(hs, n - 1);
      ShallowerAppend(c, hs[n - 1], h.level);
      assert c + [] == c && Shallower(c, h.level) + [] == Shallower(c, h.level);
    }
  }

  lemma ShallowerAppend(c: seq<Heading>, x: Heading, level: nat)
    ensures Shallower(c + [x], level) == Shallower(c, level) + if x.level < level then [x] else []
  {
    assert (c + [x])[..|c|] == c;
  }

  lemma StillEncloses(hs: seq<Heading>, h: Heading, j: nat)
    requires j < |hs|
    ensures Encloses(hs + [h], j) <==> Encloses(hs, j) && hs[j].level < h.level
  {
    var longer := hs + [h];
    assert longer[|hs|] == h && forall k :: 0 <= k < |hs| ==> longer[k] == hs[k];
  }

  /** A new heading cuts the chain back to what is shallower than it. */
  lemma ChainStep(hs: seq<Heading>, h: Heading)
    ensures Chain(hs + [h]) == Shallower(Chain(hs), h.level) + [h]
  {
    EnclosingStep(hs, h, |hs|);
    assert (hs + [h])[|hs|] == h && Encloses(hs + [h], |hs|);
  }

  predicate Rising(c: seq<Heading>) {
    forall i, j :: 0 <= i < j < |c| ==> c[i].level < c[j].level
  }

  lemma {:induction false} AllShallower(c: seq<Heading>, level: nat)
    requires forall i :: 0 <= i < |c| ==> c[i].level < level
    ensures Shallower(c, level) == c
  {
    if c != [] {
      var front, last := c[..|c| - 1], c[|c| - 1];
      AllShallower(front, level);
      assert Shallower(c, level) == Shallower(front, level) + [last];
      hide Shallower;
      assert front + [last] == c;
    }
  }

  lemma {:induction false} ShallowerSplit(c: seq<Heading>, k: nat, level: nat)
    requires k <= |c| && (forall i :: 0 <= i < k ==> c[i].level < level) && (forall i :: k <= i < |c| ==> c[i].level >= level)
    ensures Shallower(c, level) == c[..k]
  {
    if k == |c| {
      AllShallower(c, level);
      assert c[..k] == c;
    } else {
      ShallowerSplit(c[..|c| - 1], k, level);
      assert c[..|c| - 1][..k] == c[..k];
    }
  }

  /** In a chain of rising levels, the shallower headings are a prefix. */
  lemma ShallowerIsPrefix(c: seq<Heading>, level: nat) returns (k: nat)
    requires Rising(c)
    ensures k <= |c| && Shallower(c, level) == c[..k]
    ensures (forall i :: 0 <= i < k ==> c[i].level < level) && (k < |c| ==> c[k].level >= level)
  {
    k := 0;
    while k < |c| && c[k].level < level
      invariant k <= |c| && forall i :: 0 <= i < k ==> c[i].level < level
    {
      k := k + 1;
    }
    assert forall i :: k <= i < |c| ==> c[i].level >= level by {
      forall i | k <= i < |c| ensures c[i].level >= level { assert i == k || c[k].level < c[i].level; }
    }
    ShallowerSplit(c, k, level);
  }

  /** A chain ends in the last heading, its levels rise, and it is never longer than the last level. */
  lemma {:induction false} ChainRises(hs: seq<Heading>)
    requires hs != [] && Levelled(hs)
    ensures var c := Chain(hs);
      Rising(c) && Levelled(c) && c != [] && c[|c| - 1] == hs[|hs| - 1] && |c| <= hs[|hs| - 1].level
  {
    var n := |hs| - 1;
    assert hs == hs[..n] + [hs[n]];
    ChainStep(hs[..n], hs[n]);
    if n > 0 {
      ChainRises(hs[..n]);
      var k := ShallowerIsPrefix(Chain(hs[..n]), hs[n].level);
    } else {
      assert Chain(hs[..n]) == [];
    }
    LengthBelowLevel(Chain(hs));
  }

  lemma {:induction false} LengthBelowLevel(c: seq<Heading>)
    requires Rising(c) && Levelled(c) && c != []
    ensures |c| <= c[|c| - 1].level
  {
    if |c| > 1 {
      LengthBelowLevel(c[..|c| - 1]);
      assert c[|c| - 2].level < c[|c| - 1].level;
    }
  }

  /** The path the code keeps is the chain of enclosing headings. */
  predicate Agrees(hs: seq<Heading>) { Stack(hs) == Texts(Chain(hs)) }

  /** The last heading is the first one, or deeper than the one before it, or at its own level's depth. */
  predicate Nested(hs: seq<Heading>)
    requires hs != []
  {
    || |hs| == 1
    || hs[|hs| - 1].level > hs[|hs| - 2].level
    || |Chain(hs)| == hs[|hs| - 1].level
  }

  lemma AgreesStep(hs: seq<Heading>)
    requires |hs| > 1 && Levelled(hs) && Agrees(hs[..|hs| - 1])
    ensures Agrees(hs) <==> Nested(hs)
  {
    var n := |hs| - 1;
    var before, h := hs[..n], hs[n];
    var c := Chain(before);
    assert hs == before + [h];
    ChainStep(before, h);
    ChainRises(before);
    ChainRises(hs);
    var k := ShallowerIsPrefix(c, h.level);
    var s := c[..k];
    assert c[|c| - 1] == hs[n - 1];
    hide Chain, Shallower, Stack;
    assert |Stack(before)| == |c|;
    assert Stack(hs) == Put(Texts(c), h) by { StackIs(hs); }
    if h.level > hs[n - 1].level {
      assert |s| == |c|;
      assert Texts(c) + [h.text] == Texts(s + [h]);
    } else if |s| + 1 == h.level {
      assert Texts(c)[..|s|] + [h.text] == Texts(s + [h]);
    } else {
      assert |s| < |c|;
      assert |Put(Texts(c), h)| != |s| + 1;
    }
  }

  lemma StackIs(hs: seq<Heading>)
    requires hs != []
    ensures Stack(hs) == Put(Stack(hs[..|hs| - 1]), hs[|hs| - 1])
  {
  }

  predicate AllAgree(hs: seq<Heading>, m: nat)
    requires m <= |hs|
  {
    forall n :: 0 < n <= m ==> Agrees(hs[..n])
  }

  predicate AllNested(hs: seq<Heading>, m: nat)
    requires m <= |hs|
  {
    forall n :: 0 < n <= m ==> Nested(hs[..n])
  }

  /** The first paths of a document are the chains of enclosing headings exactly when every one of those
      headings is nested: deeper than the heading before it, or at the depth its level says. */
  lemma {:induction false} PathsAreChainsExactly(hs: seq<Heading>, m: nat)
    requires Levelled(hs) && m <= |hs|
    ensures AllAgree(hs, m) <==> AllNested(hs, m)
  {
    if m > 0 {
      PathsAreChainsExactly(hs, m - 1);
      hide Agrees, Nested;
      assert AllAgree(hs, m) <==> AllAgree(hs, m - 1) && Agrees(hs[..m]);
      assert AllNested(hs, m) <==> AllNested(hs, m - 1) && Nested(hs[..m]);
      if m == 1 {
        FirstAgrees(hs[..1]);
      } else if AllAgree(hs, m - 1) {
        assert hs[..m][..m - 1] == hs[..m - 1];
        AgreesStep(hs[..m]);
      }
    }
  }

  lemma FirstAgrees(hs: seq<Heading>)
    requires |hs| == 1
    ensures Agrees(hs) && Nested(hs)
  {
    assert hs == [] + [hs[0]];
    ChainStep([], hs[0]);
    assert Chain([]) == [] && Stack([]) == [];
    StackIs(hs);
  }

  /** Levels that start at one and never rise by more than one. */
  predicate Stepwise(hs: seq<Heading>) {
    && (hs != [] ==> hs[0].level == 1) && Levelled(hs)
    && forall i :: 0 < i < |hs| ==> hs[i].level <= hs[i - 1].level + 1
  }

  /** In a document whose levels start at one and never rise by more than one, every path is the chain. */
  lemma StepwisePathsAreChains(hs: seq<Heading>, n: nat)
    requires Stepwise(hs) && 0 < n <= |hs|
    ensures Agrees(hs[..n])
  {
    forall m | 0 < m <= |hs| ensures Nested(hs[..m]) { StepwiseDepth(hs[..m]); }
    PathsAreChainsExactly(hs, |hs|);
  }

  /** Each level up to the last one is then present in the chain. */
  lemma {:induction false} StepwiseDepth(hs: seq<Heading>)
    requires Stepwise(hs) && hs != []
    ensures |Chain(hs)| == hs[|hs| - 1].level && CountsUp(Chain(hs))
  {
    hide Chain, Shallower;
    var n := |hs| - 1;
    assert hs == hs[..n] + [hs[n]];
    ChainStep(hs[..n], hs[n]);
    if n == 0 {
      EmptyChain();
    } else {
      StepwiseDepth(hs[..n]);
      assert hs[..n][n - 1] == hs[n - 1];
    }
    ShallowerCountsUp(Chain(hs[..n]), hs[n].level);
  }

  predicate CountsUp(c: seq<Heading>) { forall i :: 0 <= i < |c| ==> c[i].level == i + 1 }

  lemma ShallowerCountsUp(c: seq<Heading>, level: nat)
    requires CountsUp(c) && 1 <= level <= |c| + 1
    ensures Shallower(c, level) == c[..level - 1]
  {
    var k := ShallowerIsPrefix(c, level);
    assert k > 0 ==> c[k - 1].level == k;
  }

  lemma EmptyChain()
    ensures Chain([]) == [] && forall level :: Shallower([], level) == []
  {
  }

  /** Never rising by more than one is not enough: two headings that start at level two. */
  lemma SecondLevelSiblings()
    ensures Stack(Headings(["## A", "## B"])) == ["A", "B"] && Texts(Chain(Headings(["## A", "## B"]))) == ["B"]
  {
    TwoHeadings();
    hide Headings;
    SiblingStack(Heading(2, "A"), Heading(2, "B"));
  }

  lemma SiblingStack(a: Heading, b: Heading)
    requires a.level == b.level == 2
    ensures Stack([a, b]) == [a.text, b.text] && Chain([a, b]) == [b]
  {
    assert [a, b][..1] == [a] && [a][..0] == [];
    assert [] + [a] == [a] && [a] + [b] == [a, b];
    assert Stack([]) == [] && Stack([a]) == [a.text];
    ChainStep([], a);
    ChainStep([a], b);
    EmptyChain();
    hide Chain;
    assert Shallower([a], 2) == [];
  }

  lemma TwoHeadings()
    ensures Headings(["## A", "## B"]) == [Heading(2, "A"), Heading(2, "B")]
  {
    SecondLevel('A');
    SecondLevel('B');
    hide HeadingOf, Headings;
    assert "## " + ['A'] == "## A" && "## " + ['B'] == "## B";
    HeadingsOfTwo("## A", "## B", Heading(2, "A"), Heading(2, "B"));
  }

  lemma HeadingsOfTwo(x: string, y: string, a: Heading, b: Heading)
    requires HeadingOf(x) == Some(a) && HeadingOf(y) == Some(b)
    ensures Headings([x, y]) == [a, b]
  {
    hide HeadingOf;
    assert [x, y][..1] == [x] && [x][..0] == [];
    assert Headings([x]) == [a];
  }

  lemma SecondLevel(c: char)
    requires 'A' <= c <= 'Z'
    ensures HeadingOf("## " + [c]) == Some(Heading(2, [c]))
  {
    var line := "## " + [c];
    assert line[1..] == "# " + [c] && line[1..][1..] == " " + [c];
    assert Hashes(line[1..][1..]) == 0 && Hashes(line[1..]) == 1 && Hashes(line) == 2;
    assert line[2] == ' ' && line[3..] == [c];
    StripOne(c);
  }

  lemma StripOne(c: char)
    requires !IsSpace(c)
    ensures Strip([c]) == [c]
  {
    assert FirstInk([c]) == 0 && InkEnd([c]) == 1;
    assert [c][0..1] == [c];
  }

  /** Block `k` carries the path of the document's `k`-th heading, which is its first line; the first block
      has the fallback title and no heading. */
  lemma {:induction false} BlockPaths(lines: seq<string>, fallback: string, k: nat)
    requires k < |Blocks(lines, fallback)|
    ensures |Blocks(lines, fallback)| == |Headings(lines)| + 1
    ensures var b := Blocks(lines, fallback)[k];
      && b.path == (if k == 0 then [fallback] else Stack(Headings(lines)[..k]))
      && (k > 0 ==> b.lines != [] && HeadingOf(b.lines[0]) == Some(Headings(lines)[k - 1]))
      && (forall i :: (if k == 0 then 0 else 1) <= i < |b.lines| ==> HeadingOf(b.lines[i]).None?)
  {
    hide HeadingOf, Stack;
    if lines != [] {
      var n := |lines| - 1;
      var before, hs := Blocks(lines[..n], fallback), Headings(lines[..n]);
      BlockPaths(lines[..n], fallback, if k < |before| then k else 0);
      if k < |before| {
        assert k > 0 ==> Headings(lines)[..k] == hs[..k];
      } else {
        assert Headings(lines)[..k] == Headings(lines);
      }
    }
  }

  lemma {:induction false} HeadingsLevelled(lines: seq<string>)
    ensures Levelled(Headings(lines))
  {
    hide HeadingOf;
    if lines != [] { HeadingsLevelled(lines[..|lines| - 1]); }
  }

  /** For a whole document: every heading's block carries the chain of its enclosing headings exactly when
      every heading is nested; in particular whenever the levels are stepwise. */
  lemma DocumentPaths(lines: seq<string>, fallback: string)
    ensures var bs, hs := Blocks(lines, fallback), Headings(lines);
      && |bs| == |hs| + 1
      && ((forall k :: 0 < k < |bs| ==> bs[k].path == Texts(Chain(hs[..k]))) <==> AllNested(hs, |hs|))
      && (Stepwise(hs) ==> AllNested(hs, |hs|))
  {
    var bs, hs := Blocks(lines, fallback), Headings(lines);
    HeadingsLevelled(lines);
    PathsAreChainsExactly(hs, |hs|);
    forall k: nat | k < |bs| ensures |bs| == |hs| + 1 && (k > 0 ==> bs[k].path == Stack(hs[..k])) {
      BlockPaths(lines, fallback, k);
    }
    assert |bs| == |hs| + 1 by { BlockPaths(lines, fallback, 0); }
    hide Stack, Chain, Blocks, Headings, Nested;
    assert AllAgree(hs, |hs|) <==> forall k :: 0 < k < |bs| ==> bs[k].path == Texts(Chain(hs[..k])) by {
      if forall k :: 0 < k < |bs| ==> bs[k].path == Texts(Chain(hs[..k])) {
        forall n | 0 < n <= |hs| ensures Agrees(hs[..n]) { assert bs[n].path == Stack(hs[..n]); }
      }
      if AllAgree(hs, |hs|) {
        forall k | 0 < k < |bs| ensures bs[k].path == Texts(Chain(hs[..k])) { assert Agrees(hs[..k]); }
      }
    }
    if Stepwise(hs) {
      forall m | 0 < m <= |hs| ensures Agrees(hs[..m]) { StepwisePathsAreChains(hs, m); }
    }
  }
}
