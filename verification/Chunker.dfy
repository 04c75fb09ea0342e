// chunk_text and _chunk_large_paragraph of retrieval/chunker.py. The loops are proved to
// emit exactly the windows of module Windows; the lemmas at the end say what that means for
// the chunks that are returned.
module Chunker {
  import opened Text
  import opened Windows
  import Sentences

  const MIN_CHUNK_SIZE_TOKENS: nat := 50

  datatype Source = Source(documentId: string, url: string)

  datatype TextChunk = TextChunk(text: string, chunkIndex: nat, source: Source, tokenCount: nat)

  /** How a document is to be chunked. count is the tokeniser's token count, split the
      sentence splitter; the methods below use Sentences.SplitSentences. */
  datatype Chunking = Chunking(source: Source, count: string -> nat, split: string -> seq<string>, size: int, overlap: int) {
    ghost predicate UsesSplitter() { forall p :: split(p) == Sentences.SplitSentences(p) }
  }

  // ---- text preparation ----

  predicate LineBlank(c: char) { c == ' ' || c == '\t' }

  function NewlineRun(t: string): (n: nat)
    ensures n <= |t|
  {
    if t != [] && t[0] == '\n' then 1 + NewlineRun(t[1..]) else 0
  }

  function BlankRun(t: string): (n: nat)
    ensures n <= |t|
  {
    if t != [] && LineBlank(t[0]) then 1 + BlankRun(t[1..]) else 0
  }

  /** re.sub(r"\n{3,}", "\n\n", t). */
  function CollapseNewlines(t: string): string
    decreases |t|
  {
    if t == [] then []
    else if NewlineRun(t) >= 3 then "\n\n" + CollapseNewlines(t[NewlineRun(t)..])
    else [t[0]] + CollapseNewlines(t[1..])
  }

  /** re.sub(r"[ \t]{2,}", " ", t). */
  function CollapseBlanks(t: string): string
    decreases |t|
  {
    if t == [] then []
    else if BlankRun(t) >= 2 then " " + CollapseBlanks(t[BlankRun(t)..])
    else [t[0]] + CollapseBlanks(t[1..])
  }

  function NormaliseWhitespace(text: string): string {
    Strip(CollapseBlanks(CollapseNewlines(Replace(Replace(text, "\r\n", "\n"), "\r", "\n"))))
  }

  /** re.split(r"\n\n+", t). */
  function SplitAtBlankLines(cur: string, t: string): seq<string>
    decreases |t|
  {
    if t == [] then [cur]
    else if NewlineRun(t) >= 2 then [cur] + SplitAtBlankLines([], t[NewlineRun(t)..])
    else SplitAtBlankLines(cur + [t[0]], t[1..])
  }

  function LongOnes(pieces: seq<string>): (paragraphs: seq<string>)
    ensures forall p | p in paragraphs :: |p| > 20
  {
    if pieces == [] then []
    else (if |Strip(pieces[0])| > 20 then [Strip(pieces[0])] else []) + LongOnes(pieces[1..])
  }

  /** The paragraphs that chunk_text works on; none if the text is blank. */
  function Paragraphs(text: string): seq<string> {
    if Strip(text) == [] then [] else LongOnes(SplitAtBlankLines([], NormaliseWhitespace(text)))
  }

  // ---- windows rendered as chunks ----

  function Counts(count: string -> nat, parts: seq<string>): (t: seq<nat>)
    ensures |t| == |parts| && forall k | 0 <= k < |parts| :: t[k] == count(parts[k])
  {
    var at: nat --> nat := (k: nat) requires k < |parts| => count(parts[k]);
    seq(|parts|, at)
  }

  function Flags(t: seq<nat>, size: int): (flags: seq<bool>)
    ensures |flags| == |t| && forall k | 0 <= k < |t| :: flags[k] <==> t[k] > size
  {
    seq(|t|, k requires 0 <= k < |t| => t[k] > size)
  }

  function SentenceUnits(c: Chunking, sentences: seq<string>): (u: Units)
    ensures u.Valid()
  {
    AllKept(Counts(c.count, sentences))
  }

  function ParagraphUnits(c: Chunking, paragraphs: seq<string>): (u: Units)
    ensures u.Valid()
  {
    Units(Counts(c.count, paragraphs), Flags(Counts(c.count, paragraphs), c.size))
  }

  /** The chunk for one window, none if it has fewer than 50 tokens. */
  function WindowChunk(c: Chunking, sep: string, parts: seq<string>, index: nat): seq<TextChunk> {
    var text := Join(sep, parts);
    if parts == [] || c.count(text) < MIN_CHUNK_SIZE_TOKENS then []
    else [TextChunk(text, index, c.source, c.count(text))]
  }

  /** What one turn of a loop emits, and where the window held after it starts. */
  datatype Turn = Turn(chunks: seq<TextChunk>, next: nat)

  function SentenceTurn(c: Chunking, sents: seq<string>, lo: nat, i: nat, index: nat): (t: Turn)
    requires lo <= i < |sents|
    ensures t.next <= i + 1
  {
    if Sum(Counts(c.count, sents), lo, i + 1) >= c.size then
      Turn(WindowChunk(c, " ", sents[lo..i + 1], index), Carry(Counts(c.count, sents), lo, i + 1, c.overlap))
    else Turn([], lo)
  }

  /** What is still emitted, numbered from index on, when sentences lo..i are held. */
  function SentenceChunks(c: Chunking, sents: seq<string>, lo: nat, i: nat, index: nat): seq<TextChunk>
    requires lo <= i <= |sents|
    decreases |sents| - i
  {
    if i == |sents| then WindowChunk(c, " ", sents[lo..i], index)
    else
      var t := SentenceTurn(c, sents, lo, i, index);
      t.chunks + SentenceChunks(c, sents, t.next, i + 1, index + |t.chunks|)
  }

  function LargeChunks(c: Chunking, para: string, index: nat): seq<TextChunk> {
    SentenceChunks(c, c.split(para), 0, 0, index)
  }

  function ParagraphTurn(c: Chunking, paras: seq<string>, lo: nat, i: nat, index: nat): (t: Turn)
    requires lo <= i < |paras|
    ensures t.next <= i + 1
  {
    if c.count(paras[i]) > c.size then
      var flush := WindowChunk(c, "\n\n", paras[lo..i], index);
      Turn(flush + LargeChunks(c, paras[i], index + |flush|), i + 1)
    else if Sum(Counts(c.count, paras), lo, i + 1) >= c.size then
      Turn(WindowChunk(c, "\n\n", paras[lo..i + 1], index), Carry(Counts(c.count, paras), lo, i + 1, c.overlap))
    else Turn([], lo)
  }

  /** The same for paragraphs lo..i. */
  function ParagraphChunks(c: Chunking, paras: seq<string>, lo: nat, i: nat, index: nat): seq<TextChunk>
    requires lo <= i <= |paras|
    decreases |paras| - i
  {
    if i == |paras| then WindowChunk(c, "\n\n", paras[lo..i], index)
    else
      var t := ParagraphTurn(c, paras, lo, i, index);
      t.chunks + ParagraphChunks(c, paras, t.next, i + 1, index + |t.chunks|)
  }

  function Chunks(c: Chunking, text: string): seq<TextChunk> {
    ParagraphChunks(c, Paragraphs(text), 0, 0, 0)
  }

  // ---- the two loops ----

  function SumCounts(count: string -> nat, parts: seq<string>): nat {
    if parts == [] then 0 else SumCounts(count, parts[..|parts| - 1]) + count(parts[|parts| - 1])
  }

  lemma {:induction false} SumCountsIsSum(count: string -> nat, parts: seq<string>, lo: nat, hi: nat)
    requires lo <= hi <= |parts|
    ensures SumCounts(count, parts[lo..hi]) == Sum(Counts(count, parts), lo, hi)
    decreases hi
  {
    if lo < hi {
      SumCountsIsSum(count, parts, lo, hi - 1);
      assert parts[lo..hi][..hi - lo - 1] == parts[lo..hi - 1];
    }
  }

  /** The end of a full window that is kept for the next one. */
  method TakeOverlap(count: string -> nat, overlap: int, current: seq<string>) returns (overlapping: seq<string>)
    ensures overlapping == current[Carry(Counts(count, current), 0, |current|, overlap)..]
  {
    var budget := overlap;
    overlapping := [];
    var j := |current|;
    while j > 0 && budget > 0
      invariant 0 <= j <= |current|
      invariant overlapping == current[j..]
      invariant Carry(Counts(count, current), 0, |current|, overlap) == Carry(Counts(count, current), 0, j, budget)
    {
      overlapping := [current[j - 1]] + overlapping;
      budget := budget - count(current[j - 1]);
      j := j - 1;
    }
  }

  lemma {:induction false} CarryShift(count: string -> nat, parts: seq<string>, lo: nat, k: nat, hi: nat, budget: int)
    requires lo <= k <= hi <= |parts|
    ensures Carry(Counts(count, parts), lo, k, budget) == lo + Carry(Counts(count, parts[lo..hi]), 0, k - lo, budget)
  {
    if k > lo && budget > 0 {
      CarryShift(count, parts, lo, k - 1, hi, budget - count(parts[k - 1]));
    }
  }

  lemma TakenIsCarried(count: string -> nat, overlap: int, parts: seq<string>, lo: nat, hi: nat)
    requires lo <= hi <= |parts|
    ensures parts[lo..hi][Carry(Counts(count, parts[lo..hi]), 0, hi - lo, overlap)..]
            == parts[Carry(Counts(count, parts), lo, hi, overlap)..hi]
  {
    CarryShift(count, parts, lo, hi, hi, overlap);
  }

  /** The same, for a window that is a run of parts. */
  method KeepOverlap(count: string -> nat, overlap: int, current: seq<string>, ghost parts: seq<string>,
                     ghost lo: nat, ghost hi: nat)
    returns (overlapping: seq<string>, ghost start: nat)
    requires lo <= hi <= |parts| && current == parts[lo..hi]
    ensures start == Carry(Counts(count, parts), lo, hi, overlap)
    ensures overlapping == parts[start..hi]
  {
    hide Carry, Counts;
    TakenIsCarried(count, overlap, parts, lo, hi);
    overlapping := TakeOverlap(count, overlap, current);
    start := Carry(Counts(count, parts), lo, hi, overlap);
  }

  lemma Append(done: seq<TextChunk>, head: seq<TextChunk>, rest: seq<TextChunk>)
    ensures done + (head + rest) == (done + head) + rest
    ensures done + [] == done && [] + rest == rest
  {}

  /** How a turn of the sentence loop moves chunks from what is still to come to what is
      done. */
  lemma SentenceTurnDone(c: Chunking, sents: seq<string>, lo: nat, i: nat, start: nat, done: seq<TextChunk>)
    requires lo <= i < |sents|
    ensures Sum(Counts(c.count, sents), lo, i + 1) >= c.size ==>
              var emitted := done + WindowChunk(c, " ", sents[lo..i + 1], start + |done|);
              done + SentenceChunks(c, sents, lo, i, start + |done|)
              == emitted + SentenceChunks(c, sents, Carry(Counts(c.count, sents), lo, i + 1, c.overlap), i + 1, start + |emitted|)
    ensures Sum(Counts(c.count, sents), lo, i + 1) < c.size ==>
              done + SentenceChunks(c, sents, lo, i, start + |done|)
              == done + SentenceChunks(c, sents, lo, i + 1, start + |done|)
  {
    hide WindowChunk, Sum, Carry, Counts;
    if Sum(Counts(c.count, sents), lo, i + 1) >= c.size {
      var head, next := WindowChunk(c, " ", sents[lo..i + 1], start + |done|), Carry(Counts(c.count, sents), lo, i + 1, c.overlap);
      Append(done, head, SentenceChunks(c, sents, next, i + 1, start + |done| + |head|));
    } else {
      Append(done, [], SentenceChunks(c, sents, lo, i + 1, start + |done|));
    }
  }

  lemma SentencesEnd(c: Chunking, sents: seq<string>, lo: nat, index: nat)
    requires lo <= |sents|
    ensures SentenceChunks(c, sents, lo, |sents|, index) == WindowChunk(c, " ", sents[lo..|sents|], index)
    ensures lo == |sents| ==> WindowChunk(c, " ", sents[lo..|sents|], index) == []
  {}

  method ChunkSentences(c: Chunking, sentences: seq<string>, chunkIndex: nat) returns (chunks: seq<TextChunk>)
    ensures chunks == SentenceChunks(c, sentences, 0, 0, chunkIndex)
  {
    hide SentenceChunks, WindowChunk, Sum, Carry, Counts;
    chunks := [];
    var currentSents: seq<string> := [];
    var currentTokens := 0;
    var localIdx := chunkIndex;
    ghost var lo: nat := 0;
    ghost var t, all := Counts(c.count, sentences), SentenceChunks(c, sentences, 0, 0, chunkIndex);
    SumEmpty(t, 0);
    Append([], [], all);
    for i := 0 to |sentences|
      invariant lo <= i && currentSents == sentences[lo..i]
      invariant currentTokens == Sum(t, lo, i)
      invariant localIdx == chunkIndex + |chunks|
      invariant chunks + SentenceChunks(c, sentences, lo, i, localIdx) == all
    {
      SentenceTurnDone(c, sentences, lo, i, chunkIndex, chunks);
      SumNext(t, lo, i);
      currentSents := currentSents + [sentences[i]];
      currentTokens := currentTokens + c.count(sentences[i]);
      if currentTokens >= c.size {
        var emitted := EmitSentences(c, currentSents, localIdx);
        chunks := chunks + emitted;
        localIdx := localIdx + |emitted|;
        currentSents, lo := KeepOverlap(c.count, c.overlap, currentSents, sentences, lo, i + 1);
        currentTokens := SumCounts(c.count, currentSents);
        SumCountsIsSum(c.count, sentences, lo, i + 1);
      }
    }
    SentencesEnd(c, sentences, lo, localIdx);
    if currentSents != [] {
      var emitted := EmitSentences(c, currentSents, localIdx);
      chunks := chunks + emitted;
    }
  }

  method EmitSentences(c: Chunking, sents: seq<string>, localIdx: nat) returns (made: seq<TextChunk>)
    requires sents != []
    ensures made == WindowChunk(c, " ", sents, localIdx)
  {
    var text := Join(" ", sents);
    var tokenCount := c.count(text);
    made := [];
    if tokenCount >= MIN_CHUNK_SIZE_TOKENS {
      made := [TextChunk(text, localIdx, c.source, tokenCount)];
    }
  }

  method ChunkLargeParagraph(c: Chunking, para: string, chunkIndex: nat) returns (chunks: seq<TextChunk>)
    requires c.UsesSplitter()
    ensures chunks == LargeChunks(c, para, chunkIndex)
  {
    Sentences.AbbreviationsUsable();
    var sentences := Sentences.SplitIntoSentences(Sentences.ABBREVIATIONS, para);
    assert sentences == c.split(para);
    chunks := ChunkSentences(c, sentences, chunkIndex);
  }

  lemma ParagraphTurnDone(c: Chunking, paras: seq<string>, lo: nat, i: nat, done: seq<TextChunk>)
    requires lo <= i < |paras|
    ensures c.count(paras[i]) > c.size ==>
              var flushed := done + WindowChunk(c, "\n\n", paras[lo..i], |done|);
              var split := flushed + LargeChunks(c, paras[i], |flushed|);
              done + ParagraphChunks(c, paras, lo, i, |done|) == split + ParagraphChunks(c, paras, i + 1, i + 1, |split|)
    ensures c.count(paras[i]) <= c.size && Sum(Counts(c.count, paras), lo, i + 1) >= c.size ==>
              var emitted := done + WindowChunk(c, "\n\n", paras[lo..i + 1], |done|);
              done + ParagraphChunks(c, paras, lo, i, |done|)
              == emitted + ParagraphChunks(c, paras, Carry(Counts(c.count, paras), lo, i + 1, c.overlap), i + 1, |emitted|)
    ensures c.count(paras[i]) <= c.size && Sum(Counts(c.count, paras), lo, i + 1) < c.size ==>
              done + ParagraphChunks(c, paras, lo, i, |done|) == done + ParagraphChunks(c, paras, lo, i + 1, |done|)
  {
    hide LargeChunks, WindowChunk, Sum, Carry, Counts;
    if c.count(paras[i]) > c.size {
      var flush := WindowChunk(c, "\n\n", paras[lo..i], |done|);
      var large := LargeChunks(c, paras[i], |done| + |flush|);
      var rest := ParagraphChunks(c, paras, i + 1, i + 1, |done| + |flush + large|);
      Append(done, flush + large, rest);
      Append(done, flush, large);
    } else if Sum(Counts(c.count, paras), lo, i + 1) >= c.size {
      var head, next := WindowChunk(c, "\n\n", paras[lo..i + 1], |done|), Carry(Counts(c.count, paras), lo, i + 1, c.overlap);
      Append(done, head, ParagraphChunks(c, paras, next, i + 1, |done| + |head|));
    } else {
      Append(done, [], ParagraphChunks(c, paras, lo, i + 1, |done|));
    }
  }

  lemma ParagraphsEnd(c: Chunking, paras: seq<string>, lo: nat, index: nat)
    requires lo <= |paras|
    ensures ParagraphChunks(c, paras, lo, |paras|, index) == WindowChunk(c, "\n\n", paras[lo..|paras|], index)
    ensures WindowChunk(c, "\n\n", [], index) == []
  {}

  lemma NothingToFlush(c: Chunking, index: nat)
    ensures WindowChunk(c, "\n\n", [], index) == []
  {}

  lemma SumEmpty(t: seq<nat>, i: nat)
    requires i <= |t|
    ensures Sum(t, i, i) == 0
  {}

  method ChunkParagraphs(c: Chunking, paragraphs: seq<string>) returns (chunks: seq<TextChunk>)
    requires c.UsesSplitter()
    ensures chunks == ParagraphChunks(c, paragraphs, 0, 0, 0)
  {
    hide ParagraphChunks, LargeChunks, WindowChunk, Sum, Carry, Counts, Chunking.UsesSplitter;
    chunks := [];
    var chunkIndex := 0;
    var currentParas: seq<string> := [];
    var currentTokens := 0;
    ghost var lo: nat := 0;
    ghost var t, all := Counts(c.count, paragraphs), ParagraphChunks(c, paragraphs, 0, 0, 0);
    SumEmpty(t, 0);
    Append([], [], all);
    for i := 0 to |paragraphs|
      invariant lo <= i && currentParas == paragraphs[lo..i]
      invariant currentTokens == Sum(t, lo, i)
      invariant chunkIndex == |chunks|
      invariant chunks + ParagraphChunks(c, paragraphs, lo, i, chunkIndex) == all
    {
      ParagraphTurnDone(c, paragraphs, lo, i, chunks);
      SumNext(t, lo, i);
      NothingToFlush(c, chunkIndex);
      var tokens := c.count(paragraphs[i]);
      if tokens > c.size {
        Append(chunks, [], []);
        if currentParas != [] {
          var flushed := MakeChunk(c, currentParas, chunkIndex);
          chunks := chunks + flushed;
          chunkIndex := chunkIndex + |flushed|;
          currentParas := [];
          currentTokens := 0;
        }
        var subChunks := ChunkLargeParagraph(c, paragraphs[i], chunkIndex);
        chunks := chunks + subChunks;
        chunkIndex := chunkIndex + |subChunks|;
        currentTokens, lo := 0, i + 1;
      } else {
        currentParas := currentParas + [paragraphs[i]];
        currentTokens := currentTokens + tokens;
        if currentTokens >= c.size {
          var full := MakeChunk(c, currentParas, chunkIndex);
          chunks := chunks + full;
          chunkIndex := chunkIndex + |full|;
          currentParas, lo := KeepOverlap(c.count, c.overlap, currentParas, paragraphs, lo, i + 1);
          currentTokens := SumCounts(c.count, currentParas);
          SumCountsIsSum(c.count, paragraphs, lo, i + 1);
        }
      }
    }
    ParagraphsEnd(c, paragraphs, lo, chunkIndex);
    if currentParas != [] {
      var last := MakeChunk(c, currentParas, chunkIndex);
      chunks := chunks + last;
    }
  }

  method ChunkText(c: Chunking, text: string) returns (chunks: seq<TextChunk>)
    requires c.UsesSplitter()
    ensures chunks == Chunks(c, text)
  {
    if Strip(text) == [] { return []; }
    var paragraphs := LongOnes(SplitAtBlankLines([], NormaliseWhitespace(text)));
    if paragraphs == [] { return []; }
    chunks := ChunkParagraphs(c, paragraphs);
  }

  method MakeChunk(c: Chunking, paras: seq<string>, chunkIndex: nat) returns (made: seq<TextChunk>)
    ensures made == WindowChunk(c, "\n\n", paras, chunkIndex)
  {
    if paras == [] { return []; }
    var text := Join("\n\n", paras);
    var tokenCount := c.count(text);
    if tokenCount < MIN_CHUNK_SIZE_TOKENS { return []; }
    return [TextChunk(text, chunkIndex, c.source, tokenCount)];
  }
}
