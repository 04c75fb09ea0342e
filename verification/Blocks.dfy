// The paragraphs of a document, and what becomes of them, said of its text: the runs between
// blank lines.
module Blocks {
  import opened Text
  import opened Windows
  import opened Chunker
  import opened ChunkTheorems
  import opened SentenceWindows
  import opened Whitespace

  predicate BlankLineAt(t: string, k: nat) { k + 1 < |t| && t[k] == '\n' && t[k + 1] == '\n' }

  // ---- splitting any text at its blank lines ----

  function NewlineText(n: nat): string { seq(n, _ => '\n') }

  /** Pieces with newline runs between them. */
  function Weave(pieces: seq<string>, runs: seq<nat>): string
    requires |pieces| == |runs| + 1
  {
    if runs == [] then pieces[0] else pieces[0] + (NewlineText(runs[0]) + Weave(pieces[1..], runs[1..]))
  }

  /** The pieces and newline runs of at least two make up the text, and no piece holds a
      blank line. */
  lemma {:induction false} SplitKeepsAll(cur: string, t: string) returns (runs: seq<nat>)
    requires forall k: nat | k < |cur| :: !BlankLineAt(cur + t, k)
    ensures var pieces := SplitAtBlankLines(cur, t);
            && |pieces| == |runs| + 1 && (forall n <- runs :: n >= 2) && Weave(pieces, runs) == cur + t
            && forall p <- pieces, k: nat :: !BlankLineAt(p, k)
    decreases |t|
  {
    hide NewlineRun;
    if t == [] {
      runs := [];
      assert cur + t == cur;
    } else if NewlineRun(t) >= 2 {
      var r := NewlineRun(t);
      RunShape(t);
      var more := SplitKeepsAll([], t[r..]);
      runs := [r] + more;
      assert NewlineText(r) == t[..r] && t == t[..r] + t[r..] && [] + t[r..] == t[r..];
      var pieces := SplitAtBlankLines([], t[r..]);
      assert ([cur] + pieces)[1..] == pieces && runs[1..] == more;
      forall k: nat ensures !BlankLineAt(cur, k) {
        if k < |cur| { assert !BlankLineAt(cur + t, k); }
      }
    } else {
      assert cur + [t[0]] + t[1..] == cur + t;
      BlankLineIsRun(t);
      forall k: nat | k < |cur| + 1 ensures !BlankLineAt(cur + t, k) {
        if k == |cur| { assert (cur + t)[k] == t[0]; }
      }
      runs := SplitKeepsAll(cur + [t[0]], t[1..]);
    }
  }

  lemma BlankLineIsRun(t: string)
    ensures BlankLineAt(t, 0) <==> NewlineRun(t) >= 2
  {
    hide NewlineRun;
    Unrolled(t);
    if t != [] { Unrolled(t[1..]); }
  }

  // ---- paragraphs are the long blocks ----

  /** t[lo..hi] is a maximal run without a blank line, between blank lines or the ends. */
  ghost predicate IsBlock(t: string, lo: nat, hi: nat) {
    && lo <= hi <= |t|
    && (lo == 0 || (lo >= 2 && BlankLineAt(t, lo - 2)))
    && (hi == |t| || BlankLineAt(t, hi))
    && forall k: nat | lo <= k < hi :: !BlankLineAt(t, k)
  }

  datatype Span = Span(lo: nat, hi: nat)

  /** More than twenty characters without the white space around them. */
  ghost predicate LongBlock(t: string, b: Span) {
    IsBlock(t, b.lo, b.hi) && |Strip(t[b.lo..b.hi])| > 20
  }

  /** The long blocks of t that start at or after from, in order. */
  ghost predicate LongBlocks(t: string, from: nat, bs: seq<Span>) {
    && (forall k | 0 <= k < |bs| :: LongBlock(t, bs[k]) && bs[k].lo >= from)
    && (forall i, k | 0 <= i < k < |bs| :: bs[i].hi < bs[k].lo)
    && (forall b: Span | b.lo >= from && LongBlock(t, b) :: b in bs)
  }

  function Stripped(t: string, bs: seq<Span>): (r: seq<string>)
    requires InText(t, bs)
    ensures |r| == |bs|
  {
    seq(|bs|, k requires 0 <= k < |bs| => Strip(t[bs[k].lo..bs[k].hi]))
  }

  /** Only one block starts where one ends before the next. */
  lemma BlockHere(t: string, i: nat, p: nat, b: Span)
    requires Tidy(t) && i <= p <= |t| && (i == 0 || (i >= 2 && BlankLineAt(t, i - 2)))
    requires (forall k: nat | i <= k < p :: !BlankLineAt(t, k)) && (p == |t| || BlankLineAt(t, p))
    ensures IsBlock(t, i, p)
    ensures b.lo >= i && IsBlock(t, b.lo, b.hi) ==> b == Span(i, p) || (b.lo >= p + 2 && p < |t|)
  {
    if i >= 2 { assert !TripleAt(t, i - 2); }
    if b.lo >= 2 { assert !TripleAt(t, b.lo - 2); }
  }

  function KeepLong(piece: string): seq<string> { if |Strip(piece)| > 20 then [Strip(piece)] else [] }

  lemma LongOnesStep(piece: string, pieces: seq<string>)
    ensures LongOnes([piece] + pieces) == KeepLong(piece) + LongOnes(pieces) && LongOnes([]) == []
  {
    assert ([piece] + pieces)[1..] == pieces;
  }

  lemma SplitSteps(cur: string, t: string)
    ensures SplitAtBlankLines(cur, t)
            == if t == [] then [cur]
               else if NewlineRun(t) >= 2 then [cur] + SplitAtBlankLines([], t[NewlineRun(t)..])
               else SplitAtBlankLines(cur + [t[0]], t[1..])
  {}

  ghost predicate InText(t: string, bs: seq<Span>) { forall k | 0 <= k < |bs| :: bs[k].lo <= bs[k].hi <= |t| }

  lemma StrippedCons(t: string, b: Span, more: seq<Span>)
    requires b.lo <= b.hi <= |t| && InText(t, more)
    ensures InText(t, [b] + more)
    ensures Stripped(t, [b] + more) == [Strip(t[b.lo..b.hi])] + Stripped(t, more)
  {
    hide Strip;
  }

  /** A place where a block starts, and the place where it ends. */
  ghost predicate BlockBetween(t: string, i: nat, p: nat) {
    && i <= p <= |t| && (i == 0 || (i >= 2 && BlankLineAt(t, i - 2)))
    && (forall k: nat | i <= k < p :: !BlankLineAt(t, k)) && (p == |t| || BlankLineAt(t, p))
  }

  lemma LongBlockHere(t: string, i: nat, p: nat, b: Span)
    requires Tidy(t) && BlockBetween(t, i, p)
    ensures b.lo >= i && LongBlock(t, b) ==> b == Span(i, p) || (b.lo >= p + 2 && p < |t|)
    ensures LongBlock(t, Span(i, p)) <==> KeepLong(t[i..p]) == [Strip(t[i..p])]
    ensures !LongBlock(t, Span(i, p)) <==> KeepLong(t[i..p]) == []
  {
    hide Strip, Tidy, BlankLineAt;
    BlockHere(t, i, p, b);
  }

  lemma LongHere(t: string, i: nat, p: nat, more: seq<Span>, bs: seq<Span>)
    requires Tidy(t) && BlockBetween(t, i, p) && (if p == |t| then more == [] else LongBlocks(t, p + 2, more))
    requires bs == if LongBlock(t, Span(i, p)) then [Span(i, p)] + more else more
    ensures LongBlocks(t, i, bs)
  {
    hide BlankLineAt, Tidy, Strip, LongBlock, KeepLong;
    forall b: Span | b.lo >= i && LongBlock(t, b) ensures b in bs {
      LongBlockHere(t, i, p, b);
      if b != Span(i, p) { assert b in more; }
    }
  }

  /** The block at i, and the long blocks behind it. */
  lemma OneBlock(t: string, i: nat, p: nat, more: seq<Span>) returns (bs: seq<Span>)
    requires Tidy(t) && BlockBetween(t, i, p) && (if p == |t| then more == [] else LongBlocks(t, p + 2, more))
    ensures LongBlocks(t, i, bs) && InText(t, more) && InText(t, bs)
    ensures Stripped(t, bs) == KeepLong(t[i..p]) + Stripped(t, more)
  {
    hide BlankLineAt, Tidy, Strip, Stripped, LongBlock, LongBlocks, KeepLong;
    var here := Span(i, p);
    BlocksInText(t, p + 2, more);
    LongBlockHere(t, i, p, here);
    bs := if LongBlock(t, here) then [here] + more else more;
    LongHere(t, i, p, more, bs);
    if LongBlock(t, here) { StrippedCons(t, here, more); } else { Uncons<string>([], Stripped(t, more)); }
  }

  lemma BlocksInText(t: string, from: nat, bs: seq<Span>)
    requires bs == [] || LongBlocks(t, from, bs)
    ensures InText(t, bs)
  {
    hide BlankLineAt, Strip;
  }

  lemma {:induction false} BlocksFrom(t: string, i: nat, p: nat) returns (bs: seq<Span>)
    requires Tidy(t) && i <= p <= |t| && (i == 0 || (i >= 2 && BlankLineAt(t, i - 2)))
    requires forall k: nat | i <= k < p :: !BlankLineAt(t, k)
    ensures LongBlocks(t, i, bs)
    ensures LongOnes(SplitAtBlankLines(t[i..p], t[p..])) == Stripped(t, bs)
    decreases |t| - p
  {
    hide NewlineRun, Strip, Tidy, BlankLineAt, SplitAtBlankLines, LongOnes, LongBlocks, KeepLong, Stripped;
    BlankLineIsRun(t[p..]);
    assert BlankLineAt(t[p..], 0) == BlankLineAt(t, p) by { BlankLineShift(t, p); }
    SplitSteps(t[i..p], t[p..]);
    if p == |t| {
      bs := OneBlock(t, i, p, []);
      LongOnesStep(t[i..p], []);
      assert [t[i..p]] + [] == [t[i..p]];
    } else if BlankLineAt(t, p) {
      NextRun(t, p);
      var more := BlocksFrom(t, p + 2, p + 2);
      bs := OneBlock(t, i, p, more);
      LongOnesStep(t[i..p], SplitAtBlankLines([], t[p + 2..]));
      assert t[p + 2..p + 2] == [];
    } else {
      bs := BlocksFrom(t, i, p + 1);
      assert t[i..p] + [t[p..][0]] == t[i..p + 1] && t[p..][1..] == t[p + 1..];
    }
  }

  lemma BlankLineShift(t: string, p: nat)
    requires p <= |t|
    ensures BlankLineAt(t[p..], 0) == BlankLineAt(t, p)
  {}

  /** In tidy text a blank line is two newlines and no more. */
  lemma NextRun(t: string, p: nat)
    requires Tidy(t) && BlankLineAt(t, p)
    ensures NewlineRun(t[p..]) == 2 && p + 2 <= |t| && t[p..][2..] == t[p + 2..]
  {
    hide NewlineRun;
    BlankLineIsRun(t[p..]);
    TripleIsRun(t[p..]);
    assert !TripleAt(t, p);
  }

  /** The paragraphs that are chunked are exactly the long blocks of the normalised text,
      stripped, in their order. */
  lemma ParagraphsAreBlocks(text: string) returns (bs: seq<Span>)
    ensures var t := NormaliseWhitespace(text);
            LongBlocks(t, 0, bs) && InText(t, bs) && Paragraphs(text) == Stripped(t, bs)
  {
    hide NormaliseWhitespace, SplitAtBlankLines, LongOnes, LongBlocks, Stripped, Strip, Tidy;
    var t := NormaliseWhitespace(text);
    NormalisedText(text);
    bs := BlocksFrom(t, 0, 0);
    BlocksInText(t, 0, bs);
    assert t[0..0] == [] && t[0..] == t;
    if Strip(text) == [] {
      BlankNormalised(text);
      BlankHasNoParagraph();
    }
  }

  lemma BlankNormalised(text: string)
    requires Strip(text) == []
    ensures NormaliseWhitespace(text) == []
  {
    hide NormaliseWhitespace, Strip, Tidy, NonSpace;
    var t := NormaliseWhitespace(text);
    NormalisedText(text);
    NonSpaceStrip(text);
    NothingIsNonSpace();
    if t != [] { NonSpaceMembers(t, t[0]); }
  }

  lemma NothingIsNonSpace()
    ensures NonSpace([]) == []
  {}

  lemma BlankHasNoParagraph()
    ensures LongOnes(SplitAtBlankLines([], [])) == []
  {
    assert Strip([]) == [];
  }

  lemma {:induction false} SumHolds(t: seq<nat>, lo: nat, hi: nat, p: nat)
    requires lo <= p < hi <= |t|
    ensures Sum(t, lo, hi) >= t[p]
    decreases hi
  {
    if p < hi - 1 { SumHolds(t, lo, hi - 1, p); }
  }

  /** text stands somewhere in a returned chunk. */
  ghost predicate Returned(chunks: seq<TextChunk>, text: string) {
    exists k: nat, at: nat :: k < |chunks| && StandsAt(chunks[k].text, text, at)
  }

  lemma WindowReturned(chunks: seq<TextChunk>, paras: seq<string>, e: Event, p: nat)
    requires e.Window? && e.lo <= p < e.hi <= |paras| && Emits(chunks, WindowText("\n\n", paras, e))
    ensures Returned(chunks, paras[p])
  {
    hide Join, StandsAt, Offset;
    var k :| 0 <= k < |chunks| && chunks[k].text == WindowText("\n\n", paras, e);
    JoinOffsets("\n\n", paras[e.lo..e.hi], p - e.lo);
    assert paras[e.lo..e.hi][p - e.lo] == paras[p];
  }

  /** Every long block of a document that fits the chunk size stands in a returned chunk,
      unless it has fewer than 50 tokens itself; of one that does not fit, every window of
      sentences of at least 50 tokens is returned. */
  lemma BlockIsReturned(c: Chunking, text: string, b: Span)
    requires c.size >= 50 && Superadditive(c.count, "\n\n", Paragraphs(text))
    requires LongBlock(NormaliseWhitespace(text), b)
    ensures var para := Strip(NormaliseWhitespace(text)[b.lo..b.hi]);
            if c.count(para) <= c.size then c.count(para) < 50 || Returned(Chunks(c, text), para)
            else forall s, index: nat :: Emits(LargeChunks(c, para, index), s) ==> Emits(Chunks(c, text), s)
  {
    hide NormaliseWhitespace, Strip, Paragraphs, Events, ParagraphChunks, LargeChunks, Emits, Superadditive, Returned, Join,
         Counts, Sum, Flags;
    var t, paras := NormaliseWhitespace(text), Paragraphs(text);
    var para := Strip(t[b.lo..b.hi]);
    var bs := ParagraphsAreBlocks(text);
    var p :| 0 <= p < |bs| && bs[p] == b;
    assert paras[p] == para;
    if c.count(para) <= c.size {
      Coverage(c, paras, p);
      var e :| && e in Events(ParagraphUnits(c, paras), c.size, c.overlap, 0, 0) && Covers(e, p) && e.hi <= |paras|
               && (Emits(ParagraphChunks(c, paras, 0, 0, 0), WindowText("\n\n", paras, e))
                   || (e.kind != Full && Sum(Counts(c.count, paras), e.lo, e.hi) < 50));
      SumHolds(Counts(c.count, paras), e.lo, e.hi, p);
      if Emits(Chunks(c, text), WindowText("\n\n", paras, e)) { WindowReturned(Chunks(c, text), paras, e, p); }
    } else {
      forall s, index: nat | Emits(LargeChunks(c, para, index), s) ensures Emits(Chunks(c, text), s) {
        OversizedIsEmitted(c, paras, 0, 0, 0, p, index, s);
      }
    }
  }

  /** With the fallback tokeniser that holds for every document. */
  lemma TextCoverage(c: Chunking, text: string, b: Span)
    requires c.count == FallbackCount && c.size >= 50 && LongBlock(NormaliseWhitespace(text), b)
    ensures var para := Strip(NormaliseWhitespace(text)[b.lo..b.hi]);
            if c.count(para) <= c.size then c.count(para) < 50 || Returned(Chunks(c, text), para)
            else forall s, index: nat :: Emits(LargeChunks(c, para, index), s) ==> Emits(Chunks(c, text), s)
  {
    hide NormaliseWhitespace, Strip, Emits, Superadditive, Returned, LargeChunks, Chunks, FallbackCount, LongBlock;
    FallbackIsSuperadditive("\n\n", Paragraphs(text));
    BlockIsReturned(c, text, b);
  }

  /** And the long blocks that are in no chunk have at most 49 tokens for every oversized one,
      and 49 more, all together. */
  lemma TextLoss(c: Chunking, text: string) returns (bs: seq<Span>)
    requires c.count == FallbackCount && c.size >= 50
    ensures var t := NormaliseWhitespace(text);
            && LongBlocks(t, 0, bs) && InText(t, bs)
            && LostTokens(c, Stripped(t, bs), |bs|) <= 49 * (Oversizes(ParagraphUnits(c, Stripped(t, bs)), 0) + 1)
  {
    hide NormaliseWhitespace, LongBlocks, Stripped, LostTokens, Oversizes, ParagraphUnits;
    bs := ParagraphsAreBlocks(text);
    FallbackLoss(c, text);
  }
}
