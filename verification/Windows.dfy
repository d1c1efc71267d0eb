/** Overlapping token windows over a section that is too large for one chunk. */
module Windows {
  import opened Tokens

  /** The first token of window `k`. */
  function Start(k: nat, max: nat, overlap: nat): nat
    requires overlap < max
  {
    if k == 0 then 0 else Start(k - 1, max, overlap) + (max - overlap)
  }

  /** The token after the last of window `k`. */
  function End(k: nat, n: nat, max: nat, overlap: nat): nat
    requires overlap < max
  {
    if Start(k, max, overlap) + max < n then Start(k, max, overlap) + max else n
  }

  /** The number of windows over `n` tokens. */
  function Count(n: nat, max: nat, overlap: nat): (c: nat)
    requires overlap < max
    ensures c > 0
  {
    if n <= max then 1 else Count(n - (max - overlap), max, overlap) + 1
  }

  /** The text from token `a` to the token before `b`. */
  function Hull(text: string, a: nat, b: nat): string
    requires a < b <= |Spans(text, 0)|
  {
    TextOf(text, Span(Spans(text, 0)[a].start, Spans(text, 0)[b - 1].end))
  }

  /** What splitting gives: one stripped piece, or the text of each window from its first token to its last. */
  function Pieces(text: string, max: nat, overlap: nat): seq<string>
    requires overlap < max
  {
    var n := |Spans(text, 0)|;
    if n <= max then
      [Strip(text)]
    else
      seq(Count(n, max, overlap), k => Window(text, max, overlap, k))
  }

  function Window(text: string, max: nat, overlap: nat, k: int): string
    requires overlap < max
  {
    var n := |Spans(text, 0)|;
    if 0 <= k < Count(n, max, overlap) && n > 0 then
      WindowIn(k, n, max, overlap);
      Hull(text, Start(k, max, overlap), End(k, n, max, overlap))
    else ""
  }

  // ---------------------------------------------------------------- window arithmetic

  lemma {:induction false} StartIs(k: nat, max: nat, overlap: nat)
    requires overlap < max
    ensures Start(k, max, overlap) == k * (max - overlap)
  {
    if k > 0 {
      StartIs(k - 1, max, overlap);
      assert (k - 1) * (max - overlap) + (max - overlap) == k * (max - overlap);
    }
  }

  lemma {:induction false} CountBounds(n: nat, max: nat, overlap: nat)
    requires overlap < max < n
    ensures var c := Count(n, max, overlap);
      c >= 2 && Start(c - 1, max, overlap) < n - overlap <= Start(c, max, overlap)
  {
    if n - (max - overlap) > max {
      CountBounds(n - (max - overlap), max, overlap);
    } else {
      assert Start(0, max, overlap) == 0 && Start(1, max, overlap) == max - overlap;
    }
  }

  /** Windows start inside the tokens, are not empty, every one after the first holds more than the overlap,
      and only the last one reaches the end. */
  lemma {:induction false} WindowIn(k: nat, n: nat, max: nat, overlap: nat)
    requires overlap < max && k < Count(n, max, overlap) && n > 0
    ensures Start(k, max, overlap) < End(k, n, max, overlap) <= n
    ensures k > 0 ==> Start(k, max, overlap) + overlap < End(k, n, max, overlap)
    ensures End(k, n, max, overlap) == n <==> k == Count(n, max, overlap) - 1
  {
    if k > 0 {
      WindowIn(k - 1, n - (max - overlap), max, overlap);
    }
  }

  lemma NextStart(k: nat, n: nat, max: nat, overlap: nat)
    requires overlap < max && n > 0
    ensures Start(k + 1, max, overlap) == Start(k, max, overlap) + (max - overlap)
    ensures k + 1 < Count(n, max, overlap) ==> Start(k + 1, max, overlap) < n
  {
    if k + 1 < Count(n, max, overlap) { WindowIn(k + 1, n, max, overlap); }
  }

  // ---------------------------------------------------------------- the loop

  /** The slice the code takes for a window, stripped, is the text of the window's tokens. */
  lemma SliceIsHull(text: string, a: nat, b: nat, lo: nat, hi: nat)
    requires a < b <= |Spans(text, 0)| && lo <= hi <= |text| && Between(text, a, lo) && Between(text, b, hi)
    ensures Strip(text[lo..hi]) == Hull(text, a, b) != ""
  {
    hide Spans, Between, Strip;
    CutBetween(text, a, b, lo, hi);
    StripIsHull(text[lo..hi]);
    var spans, cut := Spans(text, 0), Spans(text[lo..hi], 0);
    assert spans[a..b][0] == spans[a] && spans[a..b][b - a - 1] == spans[b - 1];
    SliceOfSlice(text, lo, hi, cut[0].start, cut[b - a - 1].end);
  }

  lemma BoundsAreBetween(text: string, a: nat, b: nat)
    requires a < b <= |Spans(text, 0)|
    ensures var spans := Spans(text, 0);
      var lo, hi := if a == 0 then 0 else spans[a].start, if b == |spans| then |text| else spans[b - 1].end;
      lo <= hi <= |text| && Between(text, a, lo) && Between(text, b, hi)
  {
    SpansOrdered(text, 0);
    var spans := Spans(text, 0);
    hide Spans;
    if a < b - 1 { assert spans[a].end <= spans[b - 1].start; }
    if a > 0 { assert spans[a - 1].end <= spans[a].start; }
    if b < |spans| { assert spans[b - 1].end <= spans[b].start; }
  }

  /** One turn of the loop: the slice it takes is the next piece, and it breaks exactly at the last one. */
  lemma Turn(text: string, max: nat, overlap: nat, k: nat, a: nat, b: nat, lo: nat, hi: nat)
    requires overlap < max < |Spans(text, 0)| && k < |Pieces(text, max, overlap)|
    requires a == Start(k, max, overlap) < |Spans(text, 0)| && b == End(k, |Spans(text, 0)|, max, overlap)
    requires lo == (if a == 0 then 0 else Spans(text, 0)[a].start)
    requires hi == (if b == |Spans(text, 0)| || b == 0 then |text| else Spans(text, 0)[b - 1].end)
    ensures lo <= hi <= |text| && Strip(text[lo..hi]) == Pieces(text, max, overlap)[k] != ""
    ensures b == |Spans(text, 0)| <==> k == |Pieces(text, max, overlap)| - 1
    ensures a + (max - overlap) == Start(k + 1, max, overlap)
    ensures k + 1 < |Pieces(text, max, overlap)| ==> Start(k + 1, max, overlap) < |Spans(text, 0)|
  {
    hide Spans, Between, Strip, Hull, Start, Count;
    var n := |Spans(text, 0)|;
    WindowIn(k, n, max, overlap);
    NextStart(k, n, max, overlap);
    BoundsAreBetween(text, a, b);
    SliceIsHull(text, a, b, lo, hi);
  }

  lemma PiecesLength(text: string, max: nat, overlap: nat)
    requires overlap < max
    ensures |Pieces(text, max, overlap)| == Count(|TokenTexts(text)|, max, overlap)
  {
  }

  lemma Extend(all: seq<string>, prefix: seq<string>)
    requires |prefix| < |all| && prefix == all[..|prefix|]
    ensures prefix + [all[|prefix|]] == all[..|prefix| + 1]
    ensures |prefix| + 1 == |all| ==> prefix + [all[|prefix|]] == all
  {
  }

  /** `_split_large_section`: a window's slice reaches to the edge of the text at either end. */
  method SplitLargeSection(text: string, max: nat, overlap: nat) returns (pieces: seq<string>)
    requires overlap < max
    ensures pieces == Pieces(text, max, overlap)
  {
    var spans := Spans(text, 0);
    if |spans| <= max { return [Strip(text)]; }
    ghost var all := Pieces(text, max, overlap);
    assert Start(0, max, overlap) == 0;
    hide Spans, Strip, Pieces, Start, Count, TokenTexts, Hull, Between;
    var step := max - overlap;
    pieces := [];
    var tokenStart := 0;
    while tokenStart < |spans|
      invariant |pieces| < |all| && tokenStart == Start(|pieces|, max, overlap) < |spans|
      invariant pieces == all[..|pieces|]
      decreases |all| - |pieces|
    {
      ghost var k := |pieces|;
      var tokenEnd := if tokenStart + max < |spans| then tokenStart + max else |spans|;
      var charStart := if tokenStart == 0 then 0 else spans[tokenStart].start;
      var charEnd := if tokenEnd == |spans| then |text| else spans[tokenEnd - 1].end;
      Turn(text, max, overlap, k, tokenStart, tokenEnd, charStart, charEnd);
      Extend(all, pieces);
      var chunk := Strip(text[charStart..charEnd]);
      if chunk != "" {
        pieces := pieces + [chunk];
      }
      if tokenEnd == |spans| { break; }
      tokenStart := tokenStart + step;
    }
  }

  // ---------------------------------------------------------------- guarantees

  /** Each piece, tokenized on its own, has exactly its window's tokens: never more than `max` of them. */
  lemma PieceTokens(text: string, max: nat, overlap: nat, k: nat)
    requires overlap < max && k < |Pieces(text, max, overlap)|
    ensures var n := |TokenTexts(text)|;
      && Start(k, max, overlap) <= End(k, n, max, overlap) <= n
      && TokenTexts(Pieces(text, max, overlap)[k]) == TokenTexts(text)[Start(k, max, overlap)..End(k, n, max, overlap)]
      && |TokenTexts(Pieces(text, max, overlap)[k])| <= max
  {
    var spans := Spans(text, 0);
    if spans == [] {
      StripIsHull(text);
      assert Spans("", 0) == [];
    } else {
      WindowIn(k, |spans|, max, overlap);
      var a, b := Start(k, max, overlap), End(k, |spans|, max, overlap);
      PieceIsHull(text, max, overlap, k);
      HullTokens(text, a, b);
    }
  }

  lemma PieceIsHull(text: string, max: nat, overlap: nat, k: nat)
    requires overlap < max && k < |Pieces(text, max, overlap)| && Spans(text, 0) != []
    ensures var n := |Spans(text, 0)|;
      && Start(k, max, overlap) < End(k, n, max, overlap) <= n
      && Pieces(text, max, overlap)[k] == Hull(text, Start(k, max, overlap), End(k, n, max, overlap))
  {
    hide Spans, Strip, Between;
    var n := |Spans(text, 0)|;
    WindowIn(k, n, max, overlap);
    if n <= max {
      BoundsAreBetween(text, 0, n);
      SliceIsHull(text, 0, n, 0, |text|);
      assert text[0..|text|] == text;
    }
  }

  lemma HullTokens(text: string, a: nat, b: nat)
    requires a < b <= |Spans(text, 0)|
    ensures TokenTexts(Hull(text, a, b)) == TokenTexts(text)[a..b]
  {
    var spans := Spans(text, 0);
    HullIn(text, a, b);
    TokensOfCut(text, a, b, spans[a].start, spans[b - 1].end);
  }

  lemma HullIn(text: string, a: nat, b: nat)
    requires a < b <= |Spans(text, 0)|
    ensures var spans := Spans(text, 0);
      && spans[a].start < spans[b - 1].end <= |text| && Between(text, a, spans[a].start) && Between(text, b, spans[b - 1].end)
      && Hull(text, a, b) == text[spans[a].start..spans[b - 1].end]
  {
    SpansOrdered(text, 0);
    var spans := Spans(text, 0);
    hide Spans;
    if a < b - 1 { assert spans[a].end <= spans[b - 1].start; }
    if a > 0 { assert spans[a - 1].end <= spans[a].start; }
    if b < |spans| { assert spans[b - 1].end <= spans[b].start; }
  }

  /** Joining the pieces' tokens without the first `overlap` tokens of every later piece. */
  function Rejoined(pieces: seq<string>, overlap: nat): seq<string> {
    if pieces == [] then []
    else
      var n := |pieces| - 1;
      var tokens := TokenTexts(pieces[n]);
      if n == 0 then tokens else Rejoined(pieces[..n], overlap) + if overlap <= |tokens| then tokens[overlap..] else []
  }

  /** The pieces, with their overlaps dropped, give back all tokens of the text; every later piece repeats the
      last `overlap` tokens of the piece before it and adds at least one new token. */
  lemma NothingLost(text: string, max: nat, overlap: nat, k: nat)
    requires overlap < max && k < |Pieces(text, max, overlap)|
    ensures Rejoined(Pieces(text, max, overlap), overlap) == TokenTexts(text)
    ensures k > 0 ==> var previous, tokens := TokenTexts(Pieces(text, max, overlap)[k - 1]), TokenTexts(Pieces(text, max, overlap)[k]);
      overlap < |previous| && overlap < |tokens| && tokens[..overlap] == previous[|previous| - overlap..]
  {
    hide Spans, Start, End, Count, Pieces, TokenTexts, Rejoined;
    var pieces, all := Pieces(text, max, overlap), TokenTexts(text);
    RejoinedPrefix(text, max, overlap, |pieces|);
    assert pieces[..|pieces|] == pieces;
    if k > 0 {
      PiecesLength(text, max, overlap);
      LaterWindow(|all|, max, overlap, k);
      PieceTokens(text, max, overlap, k - 1);
      PieceTokens(text, max, overlap, k);
      Shared(all, Start(k - 1, max, overlap), max - overlap, overlap, End(k, |all|, max, overlap));
    }
  }

  /** Two slices of one sequence that overlap. */
  lemma Shared(all: seq<string>, s: nat, step: nat, overlap: nat, e: nat)
    requires 0 < step && s + step + overlap < e <= |all|
    ensures var x, y := all[s..s + step + overlap], all[s + step..e];
      overlap < |x| && overlap < |y| && y[..overlap] == x[|x| - overlap..]
  {
  }

  lemma LaterWindow(n: nat, max: nat, overlap: nat, k: nat)
    requires overlap < max && 0 < k < Count(n, max, overlap)
    ensures n > max && Start(k, max, overlap) == Start(k - 1, max, overlap) + (max - overlap)
    ensures End(k - 1, n, max, overlap) == Start(k, max, overlap) + overlap < End(k, n, max, overlap) <= n
  {
    WindowIn(k - 1, n, max, overlap);
    WindowIn(k, n, max, overlap);
  }

  lemma {:induction false} RejoinedPrefix(text: string, max: nat, overlap: nat, k: nat)
    requires overlap < max && 0 < k <= |Pieces(text, max, overlap)|
    ensures var n := |TokenTexts(text)|;
      End(k - 1, n, max, overlap) <= n && Rejoined(Pieces(text, max, overlap)[..k], overlap) == TokenTexts(text)[..End(k - 1, n, max, overlap)]
    ensures k == |Pieces(text, max, overlap)| ==> Rejoined(Pieces(text, max, overlap)[..k], overlap) == TokenTexts(text)
  {
    hide Spans, Pieces, TokenTexts, Rejoined, Count;
    var all, pieces := TokenTexts(text), Pieces(text, max, overlap);
    var n := |all|;
    PiecesLength(text, max, overlap);
    PieceTokens(text, max, overlap, k - 1);
    LastEnd(n, max, overlap, k - 1);
    assert all[..n] == all;
    var s, e := Start(k - 1, max, overlap), End(k - 1, n, max, overlap);
    RejoinedStep(pieces, overlap, k);
    if k == 1 {
      assert all[0..e] == all[..e];
    } else {
      LaterWindow(n, max, overlap, k - 1);
      RejoinedPrefix(text, max, overlap, k - 1);
      Glue(all, s, overlap, e);
    }
  }

  lemma LastEnd(n: nat, max: nat, overlap: nat, k: nat)
    requires overlap < max && k < Count(n, max, overlap)
    ensures k == Count(n, max, overlap) - 1 ==> End(k, n, max, overlap) == n
  {
    if n > 0 { WindowIn(k, n, max, overlap); }
  }

  lemma RejoinedStep(pieces: seq<string>, overlap: nat, k: nat)
    requires 0 < k <= |pieces|
    ensures var tokens := TokenTexts(pieces[k - 1]);
      && (k == 1 ==> Rejoined(pieces[..k], overlap) == tokens)
      && (k > 1 && overlap <= |tokens| ==> Rejoined(pieces[..k], overlap) == Rejoined(pieces[..k - 1], overlap) + tokens[overlap..])
  {
    hide TokenTexts;
    assert pieces[..k][..k - 1] == pieces[..k - 1];
  }

  lemma Glue(all: seq<string>, s: nat, overlap: nat, e: nat)
    requires s + overlap <= e <= |all|
    ensures all[..s + overlap] + all[s..e][overlap..] == all[..e]
  {
    assert all[s..e][overlap..] == all[s + overlap..e];
  }

  /** Every character that is not blank lies inside some piece. */
  lemma EveryCharacterCovered(text: string, max: nat, overlap: nat, p: nat) returns (k: nat, lo: nat, hi: nat)
    requires overlap < max && p < |text| && !IsSpace(text[p])
    ensures k < |Pieces(text, max, overlap)| && lo <= p < hi <= |text| && Pieces(text, max, overlap)[k] == text[lo..hi]
  {
    hide Spans, Start, End, Count, Pieces, IsSpace, Between, Hull;
    var spans := Spans(text, 0);
    SpansCover(text, 0, p);
    SpansOrdered(text, 0);
    var t: nat :| t < |spans| && spans[t].start <= p < spans[t].end;
    PiecesLength(text, max, overlap);
    k := WindowOf(t, |spans|, max, overlap);
    PieceIsHull(text, max, overlap, k);
    var a, b := Start(k, max, overlap), End(k, |spans|, max, overlap);
    HullIn(text, a, b);
    lo, hi := spans[a].start, spans[b - 1].end;
    if a < t { assert spans[a].end <= spans[t].start; }
    if t < b - 1 { assert spans[t].end <= spans[b - 1].start; }
  }

  /** The last window that starts no later than a token holds it. */
  lemma WindowOf(t: nat, n: nat, max: nat, overlap: nat) returns (k: nat)
    requires overlap < max && t < n
    ensures k < Count(n, max, overlap) && Start(k, max, overlap) <= t < End(k, n, max, overlap)
  {
    k := 0;
    WindowIn(0, n, max, overlap);
    while End(k, n, max, overlap) <= t
      invariant k < Count(n, max, overlap) && Start(k, max, overlap) <= t
      decreases Count(n, max, overlap) - k
    {
      WindowIn(k, n, max, overlap);
      LaterWindow(n, max, overlap, k + 1);
      k := k + 1;
    }
  }

  /** A text within the limit is one piece; a longer one is cut into ceil((n - overlap) / (max - overlap)). */
  lemma PieceCount(text: string, max: nat, overlap: nat)
    requires overlap < max
    ensures var n, c, step := |TokenTexts(text)|, |Pieces(text, max, overlap)|, max - overlap;
      if n <= max then c == 1 else (c - 1) * step < n - overlap <= c * step
  {
    PiecesLength(text, max, overlap);
    hide Pieces, Spans;
    var n := |TokenTexts(text)|;
    if n > max {
      CountBounds(n, max, overlap);
      StartIs(Count(n, max, overlap) - 1, max, overlap);
      StartIs(Count(n, max, overlap), max, overlap);
    }
  }
}
