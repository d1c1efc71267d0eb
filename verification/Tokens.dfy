/** The approximate tokenizer: Chinese characters, technical words and single symbols. */
module Tokens {
  /** Python's white space, as both `\s` and `strip` understand it. */
  predicate IsSpace(c: char) {
    || '\U{9}' <= c <= '\U{D}' || '\U{1C}' <= c <= ' ' || c == '\U{85}' || c == '\U{A0}' || c == '\U{1680}'
    || '\U{2000}' <= c <= '\U{200A}' || c == '\U{2028}' || c == '\U{2029}' || c == '\U{202F}' || c == '\U{205F}' || c == '\U{3000}'
  }

  predicate IsChinese(c: char) { '\U{3400}' <= c <= '\U{9FFF}' }

  predicate IsWord(c: char) { 'A' <= c <= 'Z' || 'a' <= c <= 'z' || '0' <= c <= '9' || c == '_' }

  predicate IsConnector(c: char) { c in "./:@+-" }

  /** The character classes, by code point. */
  lemma ClassesAre(c: char)
    ensures IsSpace(c) <==>
      c in "\U{9}\U{A}\U{B}\U{C}\U{D}\U{1C}\U{1D}\U{1E}\U{1F} \U{85}\U{A0}\U{1680}\U{2000}\U{2001}\U{2002}\U{2003}\U{2004}\U{2005}" +
           "\U{2006}\U{2007}\U{2008}\U{2009}\U{200A}\U{2028}\U{2029}\U{202F}\U{205F}\U{3000}"
    ensures IsWord(c) <==> 65 <= c as int <= 90 || 97 <= c as int <= 122 || 48 <= c as int <= 57 || c as int == 95
    ensures IsConnector(c) <==> c == '.' || c == '/' || c == ':' || c == '@' || c == '+' || c == '-'
    ensures IsChinese(c) <==> 0x3400 <= c as int <= 0x9FFF
  {
  }

  datatype Span = Span(start: nat, end: nat)

  /** The end of the run of word characters at `i`. */
  function RunEnd(text: string, i: nat): (e: nat)
    requires i <= |text|
    ensures i <= e <= |text| && (i < |text| && IsWord(text[i]) ==> i < e)
    ensures forall k :: i <= k < e ==> IsWord(text[k])
    decreases |text| - i
  {
    if i < |text| && IsWord(text[i]) then RunEnd(text, i + 1) else i
  }

  /** The end of a word whose first run ends at `j`: connectors join further runs. */
  function WordEnd(text: string, j: nat): (e: nat)
    requires j <= |text|
    ensures j <= e <= |text| && forall k :: j <= k < e ==> IsWord(text[k]) || IsConnector(text[k])
    decreases |text| - j
  {
    if j + 1 < |text| && IsConnector(text[j]) && IsWord(text[j + 1]) then WordEnd(text, RunEnd(text, j + 1)) else j
  }

  /** The end of the token that starts at the non-blank position `i`. */
  function TokenEnd(text: string, i: nat): (e: nat)
    requires i < |text| && !IsSpace(text[i])
    ensures i < e <= |text| && forall k :: i <= k < e ==> !IsSpace(text[k])
  {
    if IsChinese(text[i]) || !IsWord(text[i]) then i + 1 else WordEnd(text, RunEnd(text, i))
  }

  /** The matches of the token pattern from position `i` on. */
  function Spans(text: string, i: nat): seq<Span>
    requires i <= |text|
    decreases |text| - i
  {
    if i == |text| then []
    else if IsSpace(text[i]) then Spans(text, i + 1)
    else [Span(i, TokenEnd(text, i))] + Spans(text, TokenEnd(text, i))
  }

  /** Spans from `i` on lie behind `i`, in order, and are not blank. */
  ghost predicate Ordered(text: string, i: nat, spans: seq<Span>) {
    && (forall k :: 0 <= k < |spans| ==> i <= spans[k].start < spans[k].end <= |text|)
    && (forall j, k :: 0 <= j < k < |spans| ==> spans[j].end <= spans[k].start)
  }

  ghost predicate Inside(spans: seq<Span>, p: nat) {
    exists k :: 0 <= k < |spans| && spans[k].start <= p < spans[k].end
  }

  lemma {:induction false} SpansOrdered(text: string, i: nat)
    requires i <= |text|
    ensures Ordered(text, i, Spans(text, i))
    decreases |text| - i
  {
    hide IsSpace, IsChinese, IsWord, IsConnector, TokenEnd;
    if i < |text| {
      if IsSpace(text[i]) {
        SpansOrdered(text, i + 1);
      } else {
        SpansOrdered(text, TokenEnd(text, i));
      }
    }
  }

  lemma InsideCons(head: Span, rest: seq<Span>, p: nat)
    ensures Inside([head] + rest, p) <==> head.start <= p < head.end || Inside(rest, p)
  {
    var spans := [head] + rest;
    if head.start <= p < head.end {
      assert spans[0].start <= p < spans[0].end;
    } else if Inside(rest, p) {
      var k :| 0 <= k < |rest| && rest[k].start <= p < rest[k].end;
      assert spans[k + 1] == rest[k];
    }
  }

  /** The tokens hold exactly the characters that are not blank. */
  lemma {:induction false} SpansCover(text: string, i: nat, p: nat)
    requires i <= p < |text|
    ensures Inside(Spans(text, i), p) <==> !IsSpace(text[p])
    decreases |text| - i
  {
    hide IsSpace, IsChinese, IsWord, IsConnector, TokenEnd, Inside;
    if IsSpace(text[i]) {
      if p > i { SpansCover(text, i + 1, p); } else { NotInside(text, i + 1, p); }
    } else {
      var e := TokenEnd(text, i);
      InsideCons(Span(i, e), Spans(text, e), p);
      if p >= e { SpansCover(text, e, p); }
    }
  }

  lemma NotInside(text: string, i: nat, p: nat)
    requires p < i <= |text|
    ensures !Inside(Spans(text, i), p)
  {
    SpansOrdered(text, i);
  }

  // ---------------------------------------------------------------- what a token is

  lemma {:induction false} RunIsMaximal(text: string, i: nat)
    requires i <= |text|
    ensures RunEnd(text, i) < |text| ==> !IsWord(text[RunEnd(text, i)])
    decreases |text| - i
  {
    if i < |text| && IsWord(text[i]) { RunIsMaximal(text, i + 1); }
  }

  /** A word character, or a connector between two of them. */
  predicate InWord(text: string, p: nat)
    requires p < |text|
  {
    IsWord(text[p]) || (0 < p < |text| - 1 && IsConnector(text[p]) && IsWord(text[p - 1]) && IsWord(text[p + 1]))
  }

  ghost predicate Connected(text: string, lo: nat, hi: nat)
    requires lo <= hi <= |text|
  {
    forall p :: lo <= p < hi ==> InWord(text, p)
  }

  /** Neither a word character nor a connector with a word character behind it follows. */
  predicate Ends(text: string, e: nat) {
    e < |text| ==> !IsWord(text[e]) && !(IsConnector(text[e]) && e + 1 < |text| && IsWord(text[e + 1]))
  }

  /** A run of word characters is connected and ends in one. */
  lemma RunIsConnected(text: string, i: nat)
    requires i < |text| && IsWord(text[i])
    ensures var r := RunEnd(text, i); i < r && Connected(text, i, r) && IsWord(text[r - 1]) && (r < |text| ==> !IsWord(text[r]))
  {
    RunIsMaximal(text, i);
    hide IsWord, IsConnector;
  }

  lemma {:induction false} WordIsMaximal(text: string, j: nat)
    requires 0 < j <= |text| && IsWord(text[j - 1]) && (j < |text| ==> !IsWord(text[j]))
    ensures var e := WordEnd(text, j); Connected(text, j, e) && IsWord(text[e - 1]) && Ends(text, e)
    decreases |text| - j
  {
    hide IsWord, IsConnector;
    if j + 1 < |text| && IsConnector(text[j]) && IsWord(text[j + 1]) {
      var r := RunEnd(text, j + 1);
      RunIsConnected(text, j + 1);
      WordIsMaximal(text, r);
      assert WordEnd(text, j) == WordEnd(text, r);
      assert InWord(text, j);
      hide InWord, RunEnd, WordEnd;
    }
  }

  lemma {:induction false} SpanEnds(text: string, i: nat, k: nat)
    requires i <= |text| && k < |Spans(text, i)|
    ensures var s := Spans(text, i)[k]; s.start < |text| && !IsSpace(text[s.start]) && s.end == TokenEnd(text, s.start)
    decreases |text| - i
  {
    hide IsSpace, TokenEnd;
    if IsSpace(text[i]) {
      SpanEnds(text, i + 1, k);
    } else if k > 0 {
      SpanEnds(text, TokenEnd(text, i), k - 1);
      assert Spans(text, i)[1..] == Spans(text, TokenEnd(text, i));
    }
  }

  /** Each token is a single character that is no word character, or a whole technical word: it starts and ends
      with a word character, everything in it is a word character or a connector between two, and it could not
      go on. */
  lemma TokensAreMatches(text: string, k: nat)
    requires k < |Spans(text, 0)|
    ensures var s := Spans(text, 0)[k];
      && s.start < s.end <= |text|
      && if !IsWord(text[s.start]) then s.end == s.start + 1
         else Connected(text, s.start, s.end) && IsWord(text[s.end - 1]) && Ends(text, s.end)
  {
    SpanEnds(text, 0, k);
    EndIsMatch(text, Spans(text, 0)[k].start);
    hide Spans, IsWord, Connected, Ends, TokenEnd;
  }

  lemma EndIsMatch(text: string, i: nat)
    requires i < |text| && !IsSpace(text[i])
    ensures var e := TokenEnd(text, i);
      && i < e <= |text|
      && if !IsWord(text[i]) then e == i + 1 else Connected(text, i, e) && IsWord(text[e - 1]) && Ends(text, e)
  {
    assert IsWord(text[i]) ==> !IsChinese(text[i]);
    hide IsWord, IsConnector, IsSpace, IsChinese;
    if IsWord(text[i]) {
      RunIsConnected(text, i);
      WordIsMaximal(text, RunEnd(text, i));
      hide InWord, Ends, RunEnd, WordEnd;
    }
  }

  /** Matching can be resumed at any position between two tokens. */
  lemma {:induction false} Resume(text: string, i: nat, k: nat, q: nat)
    requires i <= |text| && k <= |Spans(text, i)|
    requires (if k == 0 then i else Spans(text, i)[k - 1].end) <= q <= (if k == |Spans(text, i)| then |text| else Spans(text, i)[k].start)
    ensures q <= |text| && Spans(text, q) == Spans(text, i)[k..]
    decreases |text| - i
  {
    hide IsSpace, IsChinese, IsWord, IsConnector, TokenEnd;
    SpansOrdered(text, i);
    if i < |text| {
      var spans := Spans(text, i);
      if IsSpace(text[i]) {
        if k > 0 || i < q { Resume(text, i + 1, k, q); }
      } else if k > 0 {
        var e := TokenEnd(text, i);
        assert Spans(text, e) == spans[1..];
        Resume(text, e, k - 1, q);
        assert spans[1..][k - 1..] == spans[k..];
      }
    }
  }

  // ---------------------------------------------------------------- cutting a text between tokens

  function Cut(text: string, lo: nat, hi: nat): string
    requires lo <= hi <= |text|
  {
    text[lo..hi]
  }

  lemma {:induction false} RunCut(text: string, lo: nat, hi: nat, i: nat)
    requires lo <= i <= hi <= |text| && RunEnd(text, i) <= hi
    ensures RunEnd(Cut(text, lo, hi), i - lo) == RunEnd(text, i) - lo
    decreases |text| - i
  {
    hide IsSpace, IsChinese, IsWord, IsConnector;
    if i < |text| && IsWord(text[i]) { RunCut(text, lo, hi, i + 1); }
  }

  lemma {:induction false} WordCut(text: string, lo: nat, hi: nat, j: nat)
    requires lo <= j <= hi <= |text| && WordEnd(text, j) <= hi
    ensures WordEnd(Cut(text, lo, hi), j - lo) == WordEnd(text, j) - lo
    decreases |text| - j
  {
    hide IsSpace, IsChinese, IsWord, IsConnector, RunEnd;
    if j + 1 < |text| && IsConnector(text[j]) && IsWord(text[j + 1]) {
      var e := RunEnd(text, j + 1);
      assert e <= WordEnd(text, e) == WordEnd(text, j);
      RunCut(text, lo, hi, j + 1);
      WordCut(text, lo, hi, e);
    }
  }

  lemma TokenCut(text: string, lo: nat, hi: nat, i: nat)
    requires lo <= i < hi <= |text| && !IsSpace(text[i]) && TokenEnd(text, i) <= hi
    ensures TokenEnd(Cut(text, lo, hi), i - lo) == TokenEnd(text, i) - lo
  {
    hide IsSpace, IsChinese, IsWord, IsConnector, RunEnd, WordEnd;
    if !IsChinese(text[i]) && IsWord(text[i]) {
      assert RunEnd(text, i) <= WordEnd(text, RunEnd(text, i)) == TokenEnd(text, i);
      RunCut(text, lo, hi, i);
      WordCut(text, lo, hi, RunEnd(text, i));
    }
  }

  /** `moved` is `spans`, `lo` positions further left. */
  ghost predicate Shifted(moved: seq<Span>, spans: seq<Span>, lo: nat) {
    |moved| == |spans| && forall k :: 0 <= k < |spans| ==> moved[k].start + lo == spans[k].start && moved[k].end + lo == spans[k].end
  }

  /** Cutting a text between two tokens leaves the tokens in between as they were. */
  lemma {:induction false} SpansCut(text: string, lo: nat, hi: nat, i: nat, m: nat)
    requires lo <= i <= hi <= |text| && m <= |Spans(text, i)|
    requires m > 0 ==> Spans(text, i)[m - 1].end <= hi
    requires m < |Spans(text, i)| ==> hi <= Spans(text, i)[m].start
    ensures Shifted(Spans(Cut(text, lo, hi), i - lo), Spans(text, i)[..m], lo)
    decreases |text| - i
  {
    hide IsSpace, IsChinese, IsWord, IsConnector, TokenEnd;
    SpansOrdered(text, i);
    var spans := Spans(text, i);
    if i == hi {
      assert m == 0;
    } else if IsSpace(text[i]) {
      assert spans == Spans(text, i + 1);
      SpansCut(text, lo, hi, i + 1, m);
      assert Cut(text, lo, hi)[i - lo] == text[i];
    } else {
      TokenStepCut(text, lo, hi, i, m);
    }
  }

  lemma {:induction false} TokenStepCut(text: string, lo: nat, hi: nat, i: nat, m: nat)
    requires lo <= i < hi <= |text| && m <= |Spans(text, i)| && !IsSpace(text[i])
    requires m > 0 ==> Spans(text, i)[m - 1].end <= hi
    requires m < |Spans(text, i)| ==> hi <= Spans(text, i)[m].start
    ensures Shifted(Spans(Cut(text, lo, hi), i - lo), Spans(text, i)[..m], lo)
    decreases |text| - i, 0
  {
    hide IsSpace, TokenEnd, Spans, Shifted;
    var spans, e := Spans(text, i), TokenEnd(text, i);
    FirstSpan(text, i);
    FirstSpanEnds(text, hi, i, m);
    TokenCut(text, lo, hi, i);
    var cut := Cut(text, lo, hi);
    assert cut[i - lo] == text[i];
    FirstSpan(cut, i - lo);
    SpansCut(text, lo, hi, e, m - 1);
    ShiftedCons(i, e, lo, Spans(cut, e - lo), Spans(text, e), m);
  }

  lemma FirstSpanEnds(text: string, hi: nat, i: nat, m: nat)
    requires i < hi <= |text| && m <= |Spans(text, i)| && !IsSpace(text[i])
    requires m > 0 ==> Spans(text, i)[m - 1].end <= hi
    requires m < |Spans(text, i)| ==> hi <= Spans(text, i)[m].start
    ensures m > 0 && TokenEnd(text, i) <= hi
  {
    hide IsSpace, TokenEnd, Spans;
    FirstSpan(text, i);
    SpansOrdered(text, i);
    var spans := Spans(text, i);
    assert m > 1 ==> spans[0].end <= spans[m - 1].start;
  }

  lemma ShiftedCons(i: nat, e: nat, lo: nat, moved: seq<Span>, rest: seq<Span>, m: nat)
    requires lo <= i <= e && 0 < m <= |rest| + 1 && Shifted(moved, rest[..m - 1], lo)
    ensures Shifted([Span(i - lo, e - lo)] + moved, ([Span(i, e)] + rest)[..m], lo)
  {
    assert ([Span(i, e)] + rest)[..m] == [Span(i, e)] + rest[..m - 1];
  }

  lemma FirstSpan(text: string, i: nat)
    requires i < |text| && !IsSpace(text[i])
    ensures var spans, e := Spans(text, i), TokenEnd(text, i);
      spans == [Span(i, e)] + Spans(text, e) && spans[1..] == Spans(text, e)
  {
  }

  // ---------------------------------------------------------------- token texts

  function TokenTexts(text: string): (r: seq<string>)
    ensures |r| == |Spans(text, 0)|
  {
    var spans := Spans(text, 0);
    seq(|spans|, k requires 0 <= k < |spans| => TextOf(text, spans[k]))
  }

  function TextOf(text: string, s: Span): string {
    if s.start <= s.end <= |text| then text[s.start..s.end] else ""
  }

  lemma SliceOfSlice(text: string, lo: nat, hi: nat, x: nat, y: nat)
    requires lo <= hi <= |text| && x <= y <= hi - lo
    ensures text[lo..hi][x..y] == text[lo + x..lo + y]
  {
    var l, r := text[lo..hi][x..y], text[lo + x..lo + y];
    assert forall k :: 0 <= k < y - x ==> l[k] == text[lo..hi][x + k] == text[lo + x + k] == r[k];
    assert l == r;
  }

  lemma TextOfShifted(text: string, lo: nat, hi: nat, moved: Span, s: Span)
    requires lo <= hi <= |text| && moved.start + lo == s.start <= s.end <= hi && moved.end + lo == s.end
    ensures TextOf(text[lo..hi], moved) == TextOf(text, s)
  {
    SliceOfSlice(text, lo, hi, moved.start, moved.end);
  }

  lemma TextsOfShifted(text: string, lo: nat, hi: nat, moved: seq<Span>, spans: seq<Span>)
    requires lo <= hi <= |text| && Shifted(moved, spans, lo)
    requires forall k :: 0 <= k < |spans| ==> spans[k].start <= spans[k].end <= hi
    ensures forall k :: 0 <= k < |spans| ==> TextOf(text[lo..hi], moved[k]) == TextOf(text, spans[k])
  {
    hide TextOf;
    forall k | 0 <= k < |spans| ensures TextOf(text[lo..hi], moved[k]) == TextOf(text, spans[k]) {
      TextOfShifted(text, lo, hi, moved[k], spans[k]);
    }
  }

  /** Position `q` lies behind the first `k` tokens and before the others. */
  predicate Between(text: string, k: nat, q: nat) {
    var spans := Spans(text, 0);
    k <= |spans| && (if k == 0 then 0 else spans[k - 1].end) <= q <= (if k == |spans| then |text| else spans[k].start)
  }

  lemma CutBetween(text: string, a: nat, b: nat, lo: nat, hi: nat)
    requires a <= b <= |Spans(text, 0)| && lo <= hi <= |text| && Between(text, a, lo) && Between(text, b, hi)
    ensures Shifted(Spans(text[lo..hi], 0), Spans(text, 0)[a..b], lo)
    ensures forall k :: a <= k < b ==> Spans(text, 0)[k].start < Spans(text, 0)[k].end <= hi
  {
    hide Spans;
    var spans := Spans(text, 0);
    SpansOrdered(text, 0);
    Resume(text, 0, a, lo);
    SpansCut(text, lo, hi, lo, b - a);
    assert spans[a..][..b - a] == spans[a..b];
    forall k | a <= k < b ensures spans[k].start < spans[k].end <= hi {
      if k < b - 1 { assert spans[k].end <= spans[b - 1].start; }
    }
  }

  /** The tokens of a piece cut out between tokens are the tokens it was cut around. */
  lemma TokensOfCut(text: string, a: nat, b: nat, lo: nat, hi: nat)
    requires a <= b <= |Spans(text, 0)| && lo <= hi <= |text| && Between(text, a, lo) && Between(text, b, hi)
    ensures TokenTexts(text[lo..hi]) == TokenTexts(text)[a..b]
  {
    hide TextOf, Spans, Ordered, Between;
    CutBetween(text, a, b, lo, hi);
    TextsOfShifted(text, lo, hi, Spans(text[lo..hi], 0), Spans(text, 0)[a..b]);
  }

  // ---------------------------------------------------------------- strip

  function FirstInk(s: string): (i: nat)
    ensures i <= |s| && (forall k :: 0 <= k < i ==> IsSpace(s[k])) && (i < |s| ==> !IsSpace(s[i]))
  {
    if s == "" || !IsSpace(s[0]) then 0 else FirstInk(s[1..]) + 1
  }

  function InkEnd(s: string): (i: nat)
    ensures i <= |s| && (forall k :: i <= k < |s| ==> IsSpace(s[k])) && (i > 0 ==> !IsSpace(s[i - 1]))
  {
    if s == "" then 0 else if IsSpace(s[|s| - 1]) then InkEnd(s[..|s| - 1]) else |s|
  }

  /** `s.strip()`. */
  function Strip(s: string): string {
    if FirstInk(s) < InkEnd(s) then s[FirstInk(s)..InkEnd(s)] else ""
  }

  /** Stripping keeps exactly the text from the first token to the last. */
  lemma StripIsHull(s: string)
    ensures var spans := Spans(s, 0);
      && (spans == [] ==> Strip(s) == "")
      && (spans != [] ==> spans[0].start < spans[|spans| - 1].end <= |s| && Strip(s) == s[spans[0].start..spans[|spans| - 1].end])
  {
    hide IsSpace, IsChinese, IsWord, IsConnector, TokenEnd, Spans, FirstInk, InkEnd;
    SpansOrdered(s, 0);
    var spans := Spans(s, 0);
    if spans == [] {
      forall p: nat | p < |s| ensures IsSpace(s[p]) { SpansCover(s, 0, p); }
    } else {
      var n := |spans| - 1;
      var lo, hi := spans[0].start, spans[n].end;
      if n > 0 { assert spans[0].end <= spans[n].start; }
      SpansCover(s, 0, lo);
      SpansCover(s, 0, hi - 1);
      assert spans[0].start <= lo < spans[0].end && spans[n].start <= hi - 1 < spans[n].end;
      hide Inside;
      forall p: nat | p < lo || hi <= p < |s| ensures IsSpace(s[p]) {
        SpansCover(s, 0, p);
        OutsideHull(s, spans, p);
      }
    }
  }

  lemma OutsideHull(text: string, spans: seq<Span>, p: nat)
    requires Ordered(text, 0, spans) && spans != [] && (p < spans[0].start || spans[|spans| - 1].end <= p)
    ensures !Inside(spans, p)
  {
    forall k | 0 <= k < |spans| ensures !(spans[k].start <= p < spans[k].end) {
      if k > 0 { assert spans[0].end <= spans[k].start; }
      if k < |spans| - 1 { assert spans[k].end <= spans[|spans| - 1].start; }
    }
  }

  lemma StripKeepsTokens(s: string)
    ensures TokenTexts(Strip(s)) == TokenTexts(s)
  {
    StripIsHull(s);
    SpansOrdered(s, 0);
    var spans := Spans(s, 0);
    if spans == [] {
      assert Spans("", 0) == [];
    } else {
      var n := |spans|;
      hide Spans, Strip;
      if n > 1 { assert spans[0].end <= spans[n - 1].start; }
      assert Between(s, 0, spans[0].start) && Between(s, n, spans[n - 1].end);
      TokensOfCut(s, 0, n, spans[0].start, spans[n - 1].end);
    }
  }

  /** A blank position lies between tokens. */
  lemma BlankIsBetween(text: string, p: nat) returns (k: nat)
    requires p < |text| && IsSpace(text[p])
    ensures k <= |Spans(text, 0)| && Between(text, k, p) && Between(text, k, p + 1)
  {
    hide Spans, IsSpace;
    SpansOrdered(text, 0);
    SpansCover(text, 0, p);
    var spans := Spans(text, 0);
    k := 0;
    while k < |spans| && spans[k].end <= p
      invariant k <= |spans| && (k > 0 ==> spans[k - 1].end <= p)
    {
      k := k + 1;
    }
  }

  /** No token reaches across a blank. */
  lemma TokensAcrossBlank(x: string, c: char, y: string)
    requires IsSpace(c)
    ensures TokenTexts(x + [c] + y) == TokenTexts(x) + TokenTexts(y)
  {
    hide Spans, IsSpace;
    var text := x + [c] + y;
    assert text[|x|] == c;
    var k := BlankIsBetween(text, |x|);
    var n := |Spans(text, 0)|;
    assert Between(text, 0, 0) && Between(text, n, |text|) by { EndsAreBetween(text); }
    TokensOfCut(text, 0, k, 0, |x|);
    TokensOfCut(text, k, n, |x| + 1, |text|);
    assert text[0..|x|] == x && text[|x| + 1..|text|] == y;
    var all := TokenTexts(text);
    hide TokenTexts;
    assert all[0..k] + all[k..n] == all;
  }

  lemma EndsAreBetween(text: string)
    ensures Between(text, 0, 0) && Between(text, |Spans(text, 0)|, |text|)
  {
    SpansOrdered(text, 0);
    hide Spans;
  }
}
