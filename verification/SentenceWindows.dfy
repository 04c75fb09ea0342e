// What _chunk_large_paragraph of retrieval/chunker.py returns, in terms of the windows of
// the paragraph's sentences.
module SentenceWindows {
  import opened Text
  import opened Windows
  import opened Chunker
  import opened ChunkTheorems

  lemma SentenceEndEmits(c: Chunking, sents: seq<string>, lo: nat, index: nat, text: string)
    requires lo <= |sents|
    ensures Emits(SentenceChunks(c, sents, lo, |sents|, index), text) <==> IsChunkOf(c, " ", sents[lo..|sents|], text)
  {
    WindowChunkEmits(c, " ", sents[lo..|sents|], index, text);
  }

  lemma SentenceTurnEmits(c: Chunking, sents: seq<string>, lo: nat, i: nat, index: nat, text: string)
    requires lo <= i < |sents|
    ensures var t := SentenceTurn(c, sents, lo, i, index);
            Emits(SentenceChunks(c, sents, lo, i, index), text)
            <==> Emits(t.chunks, text) || Emits(SentenceChunks(c, sents, t.next, i + 1, index + |t.chunks|), text)
  {
    hide SentenceTurn, Emits;
    var t := SentenceTurn(c, sents, lo, i, index);
    EmitsAppend(t.chunks, SentenceChunks(c, sents, t.next, i + 1, index + |t.chunks|), text);
  }

  lemma SentenceFullEmits(c: Chunking, sents: seq<string>, lo: nat, i: nat, index: nat, text: string)
      returns (next: nat)
    requires lo <= i < |sents| && Sum(Counts(c.count, sents), lo, i + 1) >= c.size
    ensures Emits(SentenceChunks(c, sents, lo, i, index), text)
       <==> IsChunkOf(c, " ", sents[lo..i + 1], text)
            || Emits(SentenceChunks(c, sents, Carry(Counts(c.count, sents), lo, i + 1, c.overlap), i + 1, next), text)
  {
    hide SentenceChunks, WindowChunk, Emits, Sum, Carry, Counts;
    next := index + |SentenceTurn(c, sents, lo, i, index).chunks|;
    SentenceTurnEmits(c, sents, lo, i, index, text);
    WindowChunkEmits(c, " ", sents[lo..i + 1], index, text);
  }

  lemma SentenceQuietEmits(c: Chunking, sents: seq<string>, lo: nat, i: nat, index: nat, text: string)
    requires lo <= i < |sents| && Sum(Counts(c.count, sents), lo, i + 1) < c.size
    ensures Emits(SentenceChunks(c, sents, lo, i, index), text)
       <==> Emits(SentenceChunks(c, sents, lo, i + 1, index), text)
  {
    hide SentenceChunks, Emits, Sum, Carry, Counts;
    SentenceTurnEmits(c, sents, lo, i, index, text);
    NothingEmits(text);
  }

  /** e is a non-empty run of these sentences, and text is what it joins to. */
  ghost predicate IsSentenceWindow(sents: seq<string>, e: Event, text: string) {
    e.Window? && e.lo < e.hi <= |sents| && text == WindowText(" ", sents, e)
  }

  /** A window of at least 50 tokens is emitted by the sentence loop. */
  lemma {:induction false} SentenceWindowIsEmitted(c: Chunking, sents: seq<string>, lo: nat, i: nat, index: nat,
                                                   e: Event, text: string)
    requires lo <= i <= |sents| && IsSentenceWindow(sents, e, text)
    requires e in Events(SentenceUnits(c, sents), c.size, c.overlap, lo, i)
    requires c.count(text) >= MIN_CHUNK_SIZE_TOKENS
    ensures Emits(SentenceChunks(c, sents, lo, i, index), text)
    decreases |sents| - i
  {
    hide Events, SentenceChunks, Emits, Sum, Carry, Counts, Join;
    var u := SentenceUnits(c, sents);
    EventsUnfold(u, c.size, c.overlap, lo, i);
    if i == |sents| {
      SentenceEndEmits(c, sents, lo, index, text);
    } else if Sum(u.tokens, lo, i + 1) >= c.size {
      var next := SentenceFullEmits(c, sents, lo, i, index, text);
      if e != Window(Full, lo, i + 1) {
        SentenceWindowIsEmitted(c, sents, Carry(u.tokens, lo, i + 1, c.overlap), i + 1, next, e, text);
      }
    } else {
      SentenceQuietEmits(c, sents, lo, i, index, text);
      SentenceWindowIsEmitted(c, sents, lo, i + 1, index, e, text);
    }
  }

  /** Every text the sentence loop emits is a window of its sentences. */
  lemma {:induction false} SentenceChunkIsWindow(c: Chunking, sents: seq<string>, lo: nat, i: nat, index: nat, text: string)
      returns (e: Event)
    requires lo <= i <= |sents| && Emits(SentenceChunks(c, sents, lo, i, index), text)
    ensures e in Events(SentenceUnits(c, sents), c.size, c.overlap, lo, i) && IsSentenceWindow(sents, e, text)
    ensures c.count(text) >= MIN_CHUNK_SIZE_TOKENS
    decreases |sents| - i
  {
    hide Events, SentenceChunks, Emits, Sum, Carry, Counts, Join;
    var u := SentenceUnits(c, sents);
    EventsUnfold(u, c.size, c.overlap, lo, i);
    if i == |sents| {
      SentenceEndEmits(c, sents, lo, index, text);
      e := Window(Final, lo, i);
    } else if Sum(u.tokens, lo, i + 1) >= c.size {
      var next := SentenceFullEmits(c, sents, lo, i, index, text);
      if IsChunkOf(c, " ", sents[lo..i + 1], text) {
        e := Window(Full, lo, i + 1);
      } else {
        e := SentenceChunkIsWindow(c, sents, Carry(u.tokens, lo, i + 1, c.overlap), i + 1, next, text);
      }
    } else {
      SentenceQuietEmits(c, sents, lo, i, index, text);
      e := SentenceChunkIsWindow(c, sents, lo, i + 1, index, text);
    }
  }

  /** The texts of an oversized paragraph's chunks are exactly the windows of its sentences
      that hold at least 50 tokens. */
  lemma LargeChunksAreWindows(c: Chunking, para: string, index: nat, text: string)
    ensures Emits(LargeChunks(c, para, index), text)
       <==> c.count(text) >= MIN_CHUNK_SIZE_TOKENS
            && exists e :: e in Events(SentenceUnits(c, c.split(para)), c.size, c.overlap, 0, 0)
                           && IsSentenceWindow(c.split(para), e, text)
  {
    hide Events, SentenceChunks, Emits, IsSentenceWindow;
    var sents := c.split(para);
    if Emits(LargeChunks(c, para, index), text) {
      var e := SentenceChunkIsWindow(c, sents, 0, 0, index, text);
    }
    forall e | e in Events(SentenceUnits(c, sents), c.size, c.overlap, 0, 0) && IsSentenceWindow(sents, e, text)
      ensures c.count(text) >= MIN_CHUNK_SIZE_TOKENS ==> Emits(LargeChunks(c, para, index), text)
    {
      if c.count(text) >= MIN_CHUNK_SIZE_TOKENS { SentenceWindowIsEmitted(c, sents, 0, 0, index, e, text); }
    }
  }

  /** So each joins a run of sentences of at most max(size - 1, overlap - 1 + m) + m tokens,
      with m the longest sentence. */
  lemma LargeChunkBound(c: Chunking, para: string, index: nat, m: nat, text: string)
    requires c.overlap >= 1 && forall s | s in c.split(para) :: c.count(s) <= m
    requires Emits(LargeChunks(c, para, index), text)
    ensures exists e :: && IsSentenceWindow(c.split(para), e, text)
                        && Sum(Counts(c.count, c.split(para)), e.lo, e.hi)
                           <= Max(c.size - 1, c.overlap - 1 + m) + m
  {
    hide Events, SentenceChunks, Emits, Sum, Counts;
    var e := SentenceChunkIsWindow(c, c.split(para), 0, 0, index, text);
    SentenceWindowBound(c, c.split(para), m, e);
  }

  /** The chunks of an oversized paragraph are returned, wherever in the text it stands. */
  lemma {:induction false} OversizedIsEmitted(c: Chunking, paras: seq<string>, lo: nat, i: nat, index: nat, p: nat,
                                              from: nat, text: string)
    requires lo <= i <= p < |paras| && c.count(paras[p]) > c.size && Emits(LargeChunks(c, paras[p], from), text)
    ensures Emits(ParagraphChunks(c, paras, lo, i, index), text)
    decreases p - i
  {
    hide ParagraphChunks, LargeChunks, Emits, Sum, Carry, Counts, Events, IsSentenceWindow, IsChunkOf;
    if c.count(paras[i]) > c.size {
      var at, next := OversizedEmits(c, paras, lo, i, index, text);
      if i == p {
        LargeChunksAreWindows(c, paras[p], from, text);
        LargeChunksAreWindows(c, paras[p], at, text);
      } else {
        OversizedIsEmitted(c, paras, i + 1, i + 1, next, p, from, text);
      }
    } else if Sum(Counts(c.count, paras), lo, i + 1) >= c.size {
      var next := FullEmits(c, paras, lo, i, index, text);
      OversizedIsEmitted(c, paras, Carry(Counts(c.count, paras), lo, i + 1, c.overlap), i + 1, next, p, from, text);
    } else {
      QuietEmits(c, paras, lo, i, index, text);
      OversizedIsEmitted(c, paras, lo, i + 1, index, p, from, text);
    }
  }
}
