/** The chunks of a document: the pieces of its sections, in order, each under its section's path. */
module Chunks {
  import opened Options
  import opened Text
  import opened Tokens
  import opened Windows
  import opened Sections

  datatype Chunk = Chunk(path: seq<string>, part: nat, content: string)

  function PieceChunks(path: seq<string>, pieces: seq<string>): seq<Chunk> {
    if pieces == [] then []
    else PieceChunks(path, pieces[..|pieces| - 1]) + [Chunk(path, |pieces|, pieces[|pieces| - 1])]
  }

  function SectionChunks(sections: seq<Section>, max: nat, overlap: nat): seq<Chunk>
    requires overlap < max
  {
    if sections == [] then []
    else
      var s := sections[|sections| - 1];
      SectionChunks(sections[..|sections| - 1], max, overlap) + PieceChunks(s.path, Pieces(s.body, max, overlap))
  }

  /** `chunk_markdown`, without the metadata it copies into every chunk; None is the raised size error. */
  method ChunkMarkdown(lines: seq<string>, title: string, max: int, overlap: int) returns (result: Option<seq<Chunk>>)
    ensures result.Some? <==> 0 <= overlap < max
    ensures result.Some? ==> result.value == SectionChunks(Kept(Blocks(lines, title)), max, overlap)
    ensures result.Some? ==> Recovered(result.value, overlap) == LineTokens(lines)
    ensures result.Some? ==> forall c :: c in result.value ==> |TokenTexts(c.content)| <= max
  {
    hide Pieces, Blocks, Kept, Recovered, TokenTexts, LineTokens;
    if max <= 0 || overlap < 0 || overlap >= max { return None; }
    var sections := SplitSections(lines, title);
    var chunks: seq<Chunk> := [];
    for i := 0 to |sections|
      invariant chunks == SectionChunks(sections[..i], max, overlap)
    {
      var pieces := SplitLargeSection(sections[i].body, max, overlap);
      ghost var before := chunks;
      for part := 0 to |pieces|
        invariant chunks == before + PieceChunks(sections[i].path, pieces[..part])
      {
        assert pieces[..part + 1][..part] == pieces[..part];
        chunks := chunks + [Chunk(sections[i].path, part + 1, pieces[part])];
      }
      assert pieces[..|pieces|] == pieces;
      assert sections[..i + 1][..i] == sections[..i];
    }
    assert sections[..|sections|] == sections;
    DocumentIsRecovered(lines, title, max, overlap);
    forall c | c in chunks ensures |TokenTexts(c.content)| <= max {
      ChunksAreBounded(sections, max, overlap, c);
    }
    return Some(chunks);
  }

  // ---------------------------------------------------------------- which chunks there are

  predicate BlankBlock(b: Block) { forall i :: 0 <= i < |b.lines| ==> Blank(b.lines[i]) }

  /** How many chunks a block has: none if all its lines are blank, otherwise one per piece. */
  function ChunkCount(b: Block, max: nat, overlap: nat): nat
    requires overlap < max
  {
    if BlankBlock(b) then 0 else |Pieces(Body(b.lines), max, overlap)|
  }

  /** Where the chunks of block `j` start. */
  function Position(bs: seq<Block>, j: nat, max: nat, overlap: nat): nat
    requires overlap < max && j <= |bs|
  {
    if j == 0 then 0 else Position(bs, j - 1, max, overlap) + ChunkCount(bs[j - 1], max, overlap)
  }

  lemma {:induction false} PieceChunksAre(path: seq<string>, pieces: seq<string>)
    ensures var cs := PieceChunks(path, pieces);
      |cs| == |pieces| && forall k :: 0 <= k < |pieces| ==> cs[k] == Chunk(path, k + 1, pieces[k])
  {
    if pieces != [] {
      PieceChunksAre(path, pieces[..|pieces| - 1]);
    }
  }

  /** One more block adds its own chunks at the end. */
  lemma BlockStep(bs: seq<Block>, max: nat, overlap: nat)
    requires overlap < max && bs != []
    ensures var n := |bs| - 1; var b := bs[n];
      SectionChunks(Kept(bs), max, overlap)
      == SectionChunks(Kept(bs[..n]), max, overlap) + if BlankBlock(b) then [] else PieceChunks(b.path, Pieces(Body(b.lines), max, overlap))
  {
    hide Pieces, Body, PieceChunks;
    var b, front := bs[|bs| - 1], Kept(bs[..|bs| - 1]);
    DroppedAreBlank(b);
    if BlankBlock(b) {
      assert front + [] == front;
    } else {
      assert (front + [Section(b.path, Body(b.lines))])[..|front|] == front;
    }
  }

  lemma {:induction false} PositionPrefix(bs: seq<Block>, m: nat, j: nat, max: nat, overlap: nat)
    requires overlap < max && j <= m <= |bs|
    ensures Position(bs[..m], j, max, overlap) == Position(bs, j, max, overlap)
  {
    if j > 0 { PositionPrefix(bs, m, j - 1, max, overlap); }
  }

  /** For every block that is not blank and every piece `k` of its text, there is a chunk with the block's path,
      part k + 1 and that piece; the chunks of earlier blocks come first, and there are no others. */
  lemma {:induction false} ChunksExactly(bs: seq<Block>, max: nat, overlap: nat, j: nat, k: nat)
    requires overlap < max
    ensures var chunks := SectionChunks(Kept(bs), max, overlap);
      && |chunks| == Position(bs, |bs|, max, overlap)
      && (j < |bs| && !BlankBlock(bs[j]) && k < |Pieces(Body(bs[j].lines), max, overlap)| ==>
            && Position(bs, j, max, overlap) + k < |chunks|
            && chunks[Position(bs, j, max, overlap) + k] == Chunk(bs[j].path, k + 1, Pieces(Body(bs[j].lines), max, overlap)[k]))
    decreases |bs|
  {
    hide Pieces, Body, PieceChunks, BlankBlock, Kept;
    if bs == [] {
      NoBlocks();
    } else {
      var n := |bs| - 1;
      BlockStep(bs, max, overlap);
      ChunksExactly(bs[..n], max, overlap, j, k);
      PositionPrefix(bs, n, n, max, overlap);
      PieceChunksAre(bs[n].path, Pieces(Body(bs[n].lines), max, overlap));
      if j < n {
        PositionPrefix(bs, n, j, max, overlap);
        assert bs[..n][j] == bs[j];
      }
      hide SectionChunks;
    }
  }

  lemma NoBlocks()
    ensures Kept([]) == []
  {
  }

  /** No chunk of a document holds more than the allowed number of tokens, and every chunk is a piece of a
      section under that section's path. */
  lemma {:induction false} ChunksAreBounded(sections: seq<Section>, max: nat, overlap: nat, c: Chunk)
    requires overlap < max && c in SectionChunks(sections, max, overlap)
    ensures |TokenTexts(c.content)| <= max
    ensures exists s :: s in sections && c.path == s.path && c.content in Pieces(s.body, max, overlap)
  {
    hide Pieces, TokenTexts;
    var n := |sections| - 1;
    if c in SectionChunks(sections[..n], max, overlap) {
      ChunksAreBounded(sections[..n], max, overlap, c);
    } else {
      var pieces := Pieces(sections[n].body, max, overlap);
      PieceChunksAre(sections[n].path, pieces);
      var k :| 0 <= k < |pieces| && PieceChunks(sections[n].path, pieces)[k] == c;
      assert pieces[k] == c.content;
      PieceTokens(sections[n].body, max, overlap, k);
    }
  }

  // ---------------------------------------------------------------- nothing of the document is lost

  /** What a chunk contributes: all its tokens if it is a section's first, otherwise those after the overlap. */
  function Contribution(c: Chunk, overlap: nat): seq<string> {
    var tokens := TokenTexts(c.content);
    if c.part == 1 then tokens else if overlap <= |tokens| then tokens[overlap..] else []
  }

  /** The contributions of all chunks, in order. */
  function Recovered(chunks: seq<Chunk>, overlap: nat): seq<string> {
    if chunks == [] then []
    else Recovered(chunks[..|chunks| - 1], overlap) + Contribution(chunks[|chunks| - 1], overlap)
  }

  function LineTokens(lines: seq<string>): seq<string> {
    if lines == [] then [] else LineTokens(lines[..|lines| - 1]) + TokenTexts(lines[|lines| - 1])
  }

  lemma {:induction false} RecoveredConcat(x: seq<Chunk>, y: seq<Chunk>, overlap: nat)
    ensures Recovered(x + y, overlap) == Recovered(x, overlap) + Recovered(y, overlap)
  {
    hide Contribution;
    if y == [] {
      assert x + y == x;
    } else {
      var n := |y| - 1;
      assert (x + y)[..|x| + n] == x + y[..n];
      RecoveredConcat(x, y[..n], overlap);
    }
  }

  lemma {:induction false} LineTokensConcat(x: seq<string>, y: seq<string>)
    ensures LineTokens(x + y) == LineTokens(x) + LineTokens(y)
  {
    hide TokenTexts;
    if y == [] {
      assert x + y == x;
    } else {
      var n := |y| - 1;
      assert (x + y)[..|x| + n] == x + y[..n];
      LineTokensConcat(x, y[..n]);
    }
  }

  lemma {:induction false} PiecesContribute(path: seq<string>, pieces: seq<string>, overlap: nat)
    ensures Recovered(PieceChunks(path, pieces), overlap) == Rejoined(pieces, overlap)
  {
    hide TokenTexts;
    if pieces != [] {
      var n := |pieces| - 1;
      PiecesContribute(path, pieces[..n], overlap);
      var front := PieceChunks(path, pieces[..n]);
      var last := Chunk(path, |pieces|, pieces[n]);
      assert (front + [last])[..|front|] == front;
      assert Recovered(PieceChunks(path, pieces), overlap) == Recovered(front, overlap) + Contribution(last, overlap);
      if n == 0 {
        assert front == [] && [] + TokenTexts(pieces[0]) == TokenTexts(pieces[0]);
      }
    }
  }

  /** Per section: its chunks, with the overlaps dropped, give back all tokens of the section's text. */
  lemma SectionIsRecovered(path: seq<string>, body: string, max: nat, overlap: nat)
    requires overlap < max
    ensures Recovered(PieceChunks(path, Pieces(body, max, overlap)), overlap) == TokenTexts(body)
  {
    PiecesLength(body, max, overlap);
    PiecesContribute(path, Pieces(body, max, overlap), overlap);
    NothingLost(body, max, overlap, 0);
  }

  lemma {:induction false} JoinedTokens(lines: seq<string>)
    ensures TokenTexts(Join('\n', lines)) == LineTokens(lines)
  {
    hide TokenTexts;
    if lines == [] {
      NoTokens();
    } else if |lines| == 1 {
      assert lines[..0] == [] && LineTokens(lines[..0]) == [];
    } else {
      JoinedTokens(lines[1..]);
      TokensAcrossBlank(lines[0], '\n', Join('\n', lines[1..]));
      assert lines == [lines[0]] + lines[1..];
      LineTokensConcat([lines[0]], lines[1..]);
      assert [lines[0]][..0] == [] && LineTokens([]) == [];
      assert LineTokens([lines[0]]) == TokenTexts(lines[0]);
    }
  }

  lemma NoTokens()
    ensures TokenTexts("") == []
  {
  }

  /** A block's chunks give back all tokens of its lines. */
  lemma BlockIsRecovered(b: Block, max: nat, overlap: nat)
    requires overlap < max
    ensures Recovered(if BlankBlock(b) then [] else PieceChunks(b.path, Pieces(Body(b.lines), max, overlap)), overlap) == LineTokens(b.lines)
  {
    JoinedTokens(b.lines);
    StripKeepsTokens(Join('\n', b.lines));
    SectionIsRecovered(b.path, Body(b.lines), max, overlap);
    if BlankBlock(b) {
      DroppedAreBlank(b);
      NoTokens();
    }
    hide TokenTexts, Strip, Pieces;
  }

  lemma {:induction false} BlocksAreRecovered(bs: seq<Block>, max: nat, overlap: nat)
    requires overlap < max
    ensures Recovered(SectionChunks(Kept(bs), max, overlap), overlap) == LineTokens(AllLines(bs))
  {
    hide TokenTexts, Pieces, BlankBlock, Body, PieceChunks;
    if bs != [] {
      var n := |bs| - 1;
      BlocksAreRecovered(bs[..n], max, overlap);
      BlockStep(bs, max, overlap);
      BlockIsRecovered(bs[n], max, overlap);
      RecoveredConcat(SectionChunks(Kept(bs[..n]), max, overlap),
                      if BlankBlock(bs[n]) then [] else PieceChunks(bs[n].path, Pieces(Body(bs[n].lines), max, overlap)), overlap);
      LineTokensConcat(AllLines(bs[..n]), bs[n].lines);
    }
  }

  /** Per document: the tokens of all chunks, in order and with the overlaps dropped, are exactly the tokens of
      all lines of the document. */
  lemma DocumentIsRecovered(lines: seq<string>, title: string, max: nat, overlap: nat)
    requires overlap < max
    ensures Recovered(SectionChunks(Kept(Blocks(lines, title)), max, overlap), overlap) == LineTokens(lines)
  {
    hide Recovered, SectionChunks, Kept, LineTokens, Blocks;
    BlocksAreRecovered(Blocks(lines, title), max, overlap);
    BlocksPartition(lines, title);
  }
}
