// What the windows mean for the chunks that chunk_text returns.
module ChunkTheorems {
  import opened Text
  import opened Windows
  import opened Chunker

  ghost predicate Numbered(c: Chunking, chunks: seq<TextChunk>, index: nat) {
    forall k | 0 <= k < |chunks| ::
      && chunks[k].chunkIndex == index + k
      && chunks[k].source == c.source
      && chunks[k].tokenCount == c.count(chunks[k].text) >= 50
  }

  lemma NumberedAppend(c: Chunking, a: seq<TextChunk>, b: seq<TextChunk>, index: nat)
    requires Numbered(c, a, index) && Numbered(c, b, index + |a|)
    ensures Numbered(c, a + b, index)
  {
    forall k | 0 <= k < |a + b|
      ensures (a + b)[k].chunkIndex == index + k && (a + b)[k].source == c.source
      ensures (a + b)[k].tokenCount == c.count((a + b)[k].text) >= MIN_CHUNK_SIZE_TOKENS
    {
      if k >= |a| { assert (a + b)[k] == b[k - |a|]; }
    }
  }

  lemma WindowNumbered(c: Chunking, sep: string, parts: seq<string>, index: nat)
    ensures Numbered(c, WindowChunk(c, sep, parts, index), index)
  {}

  lemma {:induction false} SentencesNumbered(c: Chunking, sents: seq<string>, lo: nat, i: nat, index: nat)
    requires lo <= i <= |sents|
    ensures Numbered(c, SentenceChunks(c, sents, lo, i, index), index)
    decreases |sents| - i
  {
    hide WindowChunk, Sum, Carry, Counts, Numbered;
    if i == |sents| {
      WindowNumbered(c, " ", sents[lo..i], index);
    } else {
      var t := SentenceTurn(c, sents, lo, i, index);
      WindowNumbered(c, " ", sents[lo..i + 1], index);
      NothingNumbered(c, index);
      SentencesNumbered(c, sents, t.next, i + 1, index + |t.chunks|);
      NumberedAppend(c, t.chunks, SentenceChunks(c, sents, t.next, i + 1, index + |t.chunks|), index);
    }
  }

  lemma NothingNumbered(c: Chunking, index: nat)
    ensures Numbered(c, [], index)
  {}

  lemma LargeNumbered(c: Chunking, para: string, index: nat)
    ensures Numbered(c, LargeChunks(c, para, index), index)
  {
    SentencesNumbered(c, c.split(para), 0, 0, index);
  }

  lemma ParagraphTurnNumbered(c: Chunking, paras: seq<string>, lo: nat, i: nat, index: nat)
    requires lo <= i < |paras|
    ensures Numbered(c, ParagraphTurn(c, paras, lo, i, index).chunks, index)
  {
    hide WindowChunk, LargeChunks, Sum, Carry, Counts, Numbered;
    WindowNumbered(c, "\n\n", paras[lo..i + 1], index);
    NothingNumbered(c, index);
    if c.count(paras[i]) > c.size {
      var flush := WindowChunk(c, "\n\n", paras[lo..i], index);
      WindowNumbered(c, "\n\n", paras[lo..i], index);
      LargeNumbered(c, paras[i], index + |flush|);
      NumberedAppend(c, flush, LargeChunks(c, paras[i], index + |flush|), index);
    }
  }

  lemma {:induction false} ParagraphsNumbered(c: Chunking, paras: seq<string>, lo: nat, i: nat, index: nat)
    requires lo <= i <= |paras|
    ensures Numbered(c, ParagraphChunks(c, paras, lo, i, index), index)
    decreases |paras| - i
  {
    hide WindowChunk, ParagraphTurn, Numbered;
    if i == |paras| {
      WindowNumbered(c, "\n\n", paras[lo..i], index);
    } else {
      var t := ParagraphTurn(c, paras, lo, i, index);
      ParagraphTurnNumbered(c, paras, lo, i, index);
      ParagraphsNumbered(c, paras, t.next, i + 1, index + |t.chunks|);
      NumberedAppend(c, t.chunks, ParagraphChunks(c, paras, t.next, i + 1, index + |t.chunks|), index);
    }
  }

  /** chunk_index is the position in the returned list, across both functions and whatever
      was dropped; every chunk carries its source and has at least 50 tokens. */
  lemma ChunkIndexIsPosition(c: Chunking, text: string)
    ensures Numbered(c, Chunks(c, text), 0)
  {
    ParagraphsNumbered(c, Paragraphs(text), 0, 0, 0);
  }

  // ---- chunks and windows ----

  function WindowText(sep: string, parts: seq<string>, e: Event): string
    requires e.Window? && e.lo <= e.hi <= |parts|
  {
    Join(sep, parts[e.lo..e.hi])
  }

  ghost predicate Emits(chunks: seq<TextChunk>, text: string) {
    exists k | 0 <= k < |chunks| :: chunks[k].text == text
  }

  lemma EmitsAppend(a: seq<TextChunk>, b: seq<TextChunk>, text: string)
    ensures Emits(a + b, text) <==> Emits(a, text) || Emits(b, text)
  {
    if Emits(a, text) {
      var k :| 0 <= k < |a| && a[k].text == text;
      assert (a + b)[k].text == text;
    }
    if Emits(b, text) {
      var k :| 0 <= k < |b| && b[k].text == text;
      assert (a + b)[|a| + k].text == text;
    }
    if Emits(a + b, text) {
      var k :| 0 <= k < |a + b| && (a + b)[k].text == text;
      assert k < |a| ==> a[k].text == text;
      assert k >= |a| ==> b[k - |a|].text == text;
    }
  }

  lemma WindowChunkEmits(c: Chunking, sep: string, parts: seq<string>, index: nat, text: string)
    ensures Emits(WindowChunk(c, sep, parts, index), text)
       <==> parts != [] && text == Join(sep, parts) && c.count(text) >= MIN_CHUNK_SIZE_TOKENS
  {
    var w := WindowChunk(c, sep, parts, index);
    if w != [] { assert w[0].text == Join(sep, parts); }
  }

  /** u describes the paragraphs: their token counts, and which exceed the chunk size. */
  ghost predicate Describes(c: Chunking, paras: seq<string>, u: Units) {
    && u.Valid() && u.tokens == Counts(c.count, paras)
    && forall k | 0 <= k < |paras| :: u.oversized[k] <==> u.tokens[k] > c.size
  }

  lemma UnitsDescribe(c: Chunking, paras: seq<string>)
    ensures Describes(c, paras, ParagraphUnits(c, paras))
  {}

  /** Any window, whether it is emitted or not, is a non-empty run of paragraphs. */
  lemma WindowsAreRuns(u: Units, size: int, overlap: int, e: Event)
    requires u.Valid() && e.Window? && e in Events(u, size, overlap, 0, 0)
    ensures e.lo < e.hi <= |u.tokens| && (e.kind == Full ==> Sum(u.tokens, e.lo, e.hi) >= size)
  {
    hide Events, Sum;
    EventsChained(u, size, overlap, 0, 0, 0);
    assert WellFormed(u, size, e);
  }

  /** text is the chunk of these parts. */
  ghost predicate IsChunkOf(c: Chunking, sep: string, parts: seq<string>, text: string) {
    parts != [] && text == Join(sep, parts) && c.count(text) >= MIN_CHUNK_SIZE_TOKENS
  }

  lemma EndEmits(c: Chunking, paras: seq<string>, lo: nat, index: nat, text: string)
    requires lo <= |paras|
    ensures Emits(ParagraphChunks(c, paras, lo, |paras|, index), text) <==> IsChunkOf(c, "\n\n", paras[lo..|paras|], text)
  {
    WindowChunkEmits(c, "\n\n", paras[lo..|paras|], index, text);
  }

  /** What one turn and what is left emit. */
  lemma TurnEmits(c: Chunking, paras: seq<string>, lo: nat, i: nat, index: nat, text: string)
    requires lo <= i < |paras|
    ensures var t := ParagraphTurn(c, paras, lo, i, index);
            Emits(ParagraphChunks(c, paras, lo, i, index), text)
            <==> Emits(t.chunks, text) || Emits(ParagraphChunks(c, paras, t.next, i + 1, index + |t.chunks|), text)
  {
    hide ParagraphTurn, Emits;
    var t := ParagraphTurn(c, paras, lo, i, index);
    EmitsAppend(t.chunks, ParagraphChunks(c, paras, t.next, i + 1, index + |t.chunks|), text);
  }

  lemma NothingEmits(text: string)
    ensures !Emits([], text)
  {}

  lemma OversizedEmits(c: Chunking, paras: seq<string>, lo: nat, i: nat, index: nat, text: string)
      returns (at: nat, next: nat)
    requires lo <= i < |paras| && c.count(paras[i]) > c.size
    ensures Emits(ParagraphChunks(c, paras, lo, i, index), text)
       <==> IsChunkOf(c, "\n\n", paras[lo..i], text) || Emits(LargeChunks(c, paras[i], at), text)
            || Emits(ParagraphChunks(c, paras, i + 1, i + 1, next), text)
  {
    hide ParagraphChunks, LargeChunks, WindowChunk, Emits, Sum, Carry, Counts;
    var flush := WindowChunk(c, "\n\n", paras[lo..i], index);
    at, next := index + |flush|, index + |ParagraphTurn(c, paras, lo, i, index).chunks|;
    TurnEmits(c, paras, lo, i, index, text);
    WindowChunkEmits(c, "\n\n", paras[lo..i], index, text);
    EmitsAppend(flush, LargeChunks(c, paras[i], at), text);
  }

  lemma FullEmits(c: Chunking, paras: seq<string>, lo: nat, i: nat, index: nat, text: string)
      returns (next: nat)
    requires lo <= i < |paras| && c.count(paras[i]) <= c.size && Sum(Counts(c.count, paras), lo, i + 1) >= c.size
    ensures Emits(ParagraphChunks(c, paras, lo, i, index), text)
       <==> IsChunkOf(c, "\n\n", paras[lo..i + 1], text)
            || Emits(ParagraphChunks(c, paras, Carry(Counts(c.count, paras), lo, i + 1, c.overlap), i + 1, next), text)
  {
    hide ParagraphChunks, WindowChunk, Emits, Sum, Carry, Counts;
    next := index + |ParagraphTurn(c, paras, lo, i, index).chunks|;
    TurnEmits(c, paras, lo, i, index, text);
    WindowChunkEmits(c, "\n\n", paras[lo..i + 1], index, text);
  }

  lemma QuietEmits(c: Chunking, paras: seq<string>, lo: nat, i: nat, index: nat, text: string)
    requires lo <= i < |paras| && c.count(paras[i]) <= c.size && Sum(Counts(c.count, paras), lo, i + 1) < c.size
    ensures Emits(ParagraphChunks(c, paras, lo, i, index), text)
       <==> Emits(ParagraphChunks(c, paras, lo, i + 1, index), text)
  {
    hide ParagraphChunks, Emits, Sum, Carry, Counts;
    TurnEmits(c, paras, lo, i, index, text);
    NothingEmits(text);
  }

  /** A window of at least 50 tokens is returned as a chunk. */
  lemma {:induction false} WindowIsEmitted(c: Chunking, paras: seq<string>, lo: nat, i: nat, index: nat, u: Units, e: Event)
    requires Describes(c, paras, u) && lo <= i <= |paras|
    requires e.Window? && e.lo < e.hi <= |paras| && e in Events(u, c.size, c.overlap, lo, i)
    requires c.count(WindowText("\n\n", paras, e)) >= MIN_CHUNK_SIZE_TOKENS
    ensures Emits(ParagraphChunks(c, paras, lo, i, index), WindowText("\n\n", paras, e))
    decreases |paras| - i
  {
    hide Events, ParagraphChunks, Emits, Sum, Carry, Counts, Join;
    var text := WindowText("\n\n", paras, e);
    EventsUnfold(u, c.size, c.overlap, lo, i);
    if i == |paras| {
      EndEmits(c, paras, lo, index, text);
    } else if u.oversized[i] {
      var _, next := OversizedEmits(c, paras, lo, i, index, text);
      if e != Window(Flush, lo, i) { WindowIsEmitted(c, paras, i + 1, i + 1, next, u, e); }
    } else if Sum(u.tokens, lo, i + 1) >= c.size {
      var next := FullEmits(c, paras, lo, i, index, text);
      if e != Window(Full, lo, i + 1) {
        WindowIsEmitted(c, paras, Carry(u.tokens, lo, i + 1, c.overlap), i + 1, next, u, e);
      }
    } else {
      QuietEmits(c, paras, lo, i, index, text);
      WindowIsEmitted(c, paras, lo, i + 1, index, u, e);
    }
  }

  /** Where a returned text comes from: a window of paragraphs, or an oversized paragraph. */
  ghost predicate ComesFrom(c: Chunking, paras: seq<string>, e: Event, text: string) {
    if e.Window? then e.lo < e.hi <= |paras| && text == WindowText("\n\n", paras, e)
    else e.unit < |paras| && exists at: nat :: Emits(LargeChunks(c, paras[e.unit], at), text)
  }

  lemma {:induction false} ChunkComesFrom(c: Chunking, paras: seq<string>, lo: nat, i: nat, index: nat, u: Units, text: string)
      returns (e: Event)
    requires Describes(c, paras, u) && lo <= i <= |paras|
    requires Emits(ParagraphChunks(c, paras, lo, i, index), text)
    ensures e in Events(u, c.size, c.overlap, lo, i) && ComesFrom(c, paras, e, text)
    decreases |paras| - i
  {
    hide Events, ParagraphChunks, LargeChunks, Emits, Sum, Carry, Counts, Join;
    EventsUnfold(u, c.size, c.overlap, lo, i);
    if i == |paras| {
      EndEmits(c, paras, lo, index, text);
      e := Window(Final, lo, i);
    } else if u.oversized[i] {
      var at, next := OversizedEmits(c, paras, lo, i, index, text);
      if IsChunkOf(c, "\n\n", paras[lo..i], text) {
        e := Window(Flush, lo, i);
      } else if Emits(LargeChunks(c, paras[i], at), text) {
        e := Oversized(i);
      } else {
        e := ChunkComesFrom(c, paras, i + 1, i + 1, next, u, text);
      }
    } else if Sum(u.tokens, lo, i + 1) >= c.size {
      var next := FullEmits(c, paras, lo, i, index, text);
      if IsChunkOf(c, "\n\n", paras[lo..i + 1], text) {
        e := Window(Full, lo, i + 1);
      } else {
        e := ChunkComesFrom(c, paras, Carry(u.tokens, lo, i + 1, c.overlap), i + 1, next, u, text);
      }
    } else {
      QuietEmits(c, paras, lo, i, index, text);
      e := ChunkComesFrom(c, paras, lo, i + 1, index, u, text);
    }
  }

  /** Every returned text is a window of paragraphs or a chunk of an oversized one. */
  lemma ChunksAreWindows(c: Chunking, paras: seq<string>, text: string)
    requires Emits(ParagraphChunks(c, paras, 0, 0, 0), text)
    ensures exists e :: e in Events(ParagraphUnits(c, paras), c.size, c.overlap, 0, 0) && ComesFrom(c, paras, e, text)
  {
    UnitsDescribe(c, paras);
    var e := ChunkComesFrom(c, paras, 0, 0, 0, ParagraphUnits(c, paras), text);
  }

  // ---- bounds ----

  lemma FittingWindowBound(u: Units, size: nat, overlap: int, e: Event)
    requires u.Valid() && size >= 1 && forall k | 0 <= k < |u.tokens| && !u.oversized[k] :: u.tokens[k] <= size
    requires e.Window? && e in Events(u, size, overlap, 0, 0)
    ensures e.lo < e.hi <= |u.tokens|
    ensures var sum := Sum(u.tokens, e.lo, e.hi);
            && sum <= (if e.kind == Full then 2 * size else size) + Max(overlap, 0) - 1
            && (e.kind == Full ==> sum >= size)
  {
    WindowsAreRuns(u, size, overlap, e);
    assert Sum(u.tokens, 0, 0) == 0;
    WindowSizeBound(u, size, overlap, size, 0, 0);
    assert Bounded(u, HeldBound(size, overlap, size), size, e);
  }

  lemma DescribedWindowBound(c: Chunking, paras: seq<string>, u: Units, e: Event)
    requires c.size >= 1 && Describes(c, paras, u)
    requires e.Window? && e in Events(u, c.size, c.overlap, 0, 0)
    ensures e.lo < e.hi <= |paras|
    ensures var sum := Sum(Counts(c.count, paras), e.lo, e.hi);
            && sum <= (if e.kind == Full then 2 * c.size else c.size) + Max(c.overlap, 0) - 1
            && (e.kind == Full ==> sum >= c.size)
  {
    FittingWindowBound(u, c.size, c.overlap, e);
  }

  /** A paragraph window holds at most 2 * size + overlap - 1 paragraph tokens, a cut-short
      one at most size + overlap - 1; a full one at least size. */
  lemma ParagraphWindowBound(c: Chunking, paras: seq<string>, e: Event)
    requires c.size >= 1
    requires e.Window? && e in Events(ParagraphUnits(c, paras), c.size, c.overlap, 0, 0)
    ensures e.lo < e.hi <= |paras|
    ensures var sum := Sum(Counts(c.count, paras), e.lo, e.hi);
            && sum <= (if e.kind == Full then 2 * c.size else c.size) + Max(c.overlap, 0) - 1
            && (e.kind == Full ==> sum >= c.size)
  {
    UnitsDescribe(c, paras);
    DescribedWindowBound(c, paras, ParagraphUnits(c, paras), e);
  }

  lemma SmallUnitsWindowBound(u: Units, size: int, overlap: int, m: nat, e: Event)
    requires u.Valid() && overlap >= 1 && forall k | 0 <= k < |u.tokens| :: u.tokens[k] <= m
    requires e.Window? && e in Events(u, size, overlap, 0, 0)
    ensures e.lo < e.hi <= |u.tokens|
    ensures Sum(u.tokens, e.lo, e.hi) <= Max(size - 1, overlap - 1 + m) + m
  {
    WindowsAreRuns(u, size, overlap, e);
    assert Sum(u.tokens, 0, 0) == 0;
    WindowSizeBound(u, size, overlap, m, 0, 0);
    assert Bounded(u, HeldBound(size, overlap, m), m, e);
  }

  /** The sentence loop: with m the longest sentence, max(size - 1, overlap - 1 + m) + m. */
  lemma SentenceWindowBound(c: Chunking, sents: seq<string>, m: nat, e: Event)
    requires c.overlap >= 1 && forall s | s in sents :: c.count(s) <= m
    requires e.Window? && e in Events(SentenceUnits(c, sents), c.size, c.overlap, 0, 0)
    ensures e.lo < e.hi <= |sents|
    ensures Sum(Counts(c.count, sents), e.lo, e.hi) <= Max(c.size - 1, c.overlap - 1 + m) + m
  {
    assert forall k | 0 <= k < |sents| :: sents[k] in sents;
    SmallUnitsWindowBound(SentenceUnits(c, sents), c.size, c.overlap, m, e);
  }

  /** With a tokeniser that gives non-empty text at least one token, no paragraph is put in
      more than overlap + 1 windows. */
  lemma ParagraphDuplication(c: Chunking, text: string, p: nat)
    requires forall s :: s != "" ==> c.count(s) >= 1
    requires p < |Paragraphs(text)|
    ensures Count(Events(ParagraphUnits(c, Paragraphs(text)), c.size, c.overlap, 0, 0), p) <= Max(c.overlap, 0) + 1
  {
    var paras := Paragraphs(text);
    var u := ParagraphUnits(c, paras);
    forall k | 0 <= k < |u.tokens| && !u.oversized[k] ensures u.tokens[k] >= 1 {
      assert paras[k] in paras && |paras[k]| > 20;
    }
    BoundedDuplication(u, c.size, c.overlap, 0, 0, p);
  }

  // ---- coverage ----

  /** Joining parts never costs tokens. */
  ghost predicate Superadditive(count: string -> nat, sep: string, parts: seq<string>) {
    forall lo: nat, hi: nat | lo < hi <= |parts| ::
      count(Join(sep, parts[lo..hi])) >= Sum(Counts(count, parts), lo, hi)
  }

  /** A paragraph that fits is in some returned chunk, or its only window was cut short
      (before an oversized paragraph or at the end) and holds fewer than 50 tokens. */
  lemma Coverage(c: Chunking, paras: seq<string>, p: nat)
    requires c.size >= 50 && Superadditive(c.count, "\n\n", paras)
    requires p < |paras| && c.count(paras[p]) <= c.size
    ensures exists e ::
              && e in Events(ParagraphUnits(c, paras), c.size, c.overlap, 0, 0)
              && Covers(e, p) && e.hi <= |paras|
              && (Emits(ParagraphChunks(c, paras, 0, 0, 0), WindowText("\n\n", paras, e))
                  || (e.kind != Full && Sum(Counts(c.count, paras), e.lo, e.hi) < 50))
  {
    var u := ParagraphUnits(c, paras);
    var ev := Events(u, c.size, c.overlap, 0, 0);
    UnitsDescribe(c, paras);
    EventsCover(u, c.size, c.overlap, 0, 0, p);
    var e :| e in ev && Covers(e, p);
    WindowsAreRuns(u, c.size, c.overlap, e);
    assert c.count(Join("\n\n", paras[e.lo..e.hi])) >= Sum(Counts(c.count, paras), e.lo, e.hi);
    if Sum(Counts(c.count, paras), e.lo, e.hi) >= 50 {
      WindowIsEmitted(c, paras, 0, 0, 0, u, e);
    }
  }

  function Oversizes(u: Units, i: nat): nat
    requires u.Valid() && i <= |u.tokens|
    decreases |u.tokens| - i
  {
    if i == |u.tokens| then 0 else (if u.oversized[i] then 1 else 0) + Oversizes(u, i + 1)
  }

  /** A window that was cut short below the minimum. */
  predicate Short(u: Units, e: Event) {
    e.Window? && e.kind != Full && e.lo <= e.hi <= |u.tokens| && Sum(u.tokens, e.lo, e.hi) < MIN_CHUNK_SIZE_TOKENS
  }

  /** Unit p is in a window that is not short. */
  ghost predicate InLong(u: Units, ev: seq<Event>, p: nat) {
    exists e :: e in ev && Covers(e, p) && !Short(u, e)
  }

  /** Tokens of the fitting units from..end that are in short windows only. */
  ghost function Missed(u: Units, ev: seq<Event>, from: nat, end: nat): nat
    requires u.Valid() && from <= end <= |u.tokens|
  {
    if from == end then 0
    else Missed(u, ev, from, end - 1) + if u.oversized[end - 1] || InLong(u, ev, end - 1) then 0 else u.tokens[end - 1]
  }

  lemma {:induction false} MissedSplit(u: Units, ev: seq<Event>, from: nat, mid: nat, end: nat)
    requires u.Valid() && from <= mid <= end <= |u.tokens|
    ensures Missed(u, ev, from, end) == Missed(u, ev, from, mid) + Missed(u, ev, mid, end)
    decreases end
  {
    hide InLong;
    if mid < end { MissedSplit(u, ev, from, mid, end - 1); }
  }

  lemma {:induction false} MissedIsPart(u: Units, ev: seq<Event>, from: nat, end: nat)
    requires u.Valid() && from <= end <= |u.tokens|
    ensures Missed(u, ev, from, end) <= Sum(u.tokens, from, end)
    ensures (forall p: nat | from <= p < end :: InLong(u, ev, p)) ==> Missed(u, ev, from, end) == 0
    decreases end
  {
    hide InLong;
    if from < end { MissedIsPart(u, ev, from, end - 1); }
  }

  lemma {:induction false} MissedLater(u: Units, ev: seq<Event>, rest: seq<Event>, from: nat, end: nat)
    requires u.Valid() && from <= end <= |u.tokens| && forall e | e in rest :: e in ev
    ensures Missed(u, ev, from, end) <= Missed(u, rest, from, end)
    decreases end
  {
    if from < end { MissedLater(u, ev, rest, from, end - 1); }
  }

  /** A window that comes next loses fewer than 50 tokens if it is cut short, and none if it
      is full. */
  lemma WindowLoss(u: Units, ev: seq<Event>, e: Event)
    requires u.Valid() && e in ev && e.Window? && e.lo < e.hi <= |u.tokens|
    ensures Missed(u, ev, e.lo, e.hi) <= if e.kind == Full then 0 else 49
  {
    MissedIsPart(u, ev, e.lo, e.hi);
    if !Short(u, e) {
      forall p: nat | e.lo <= p < e.hi ensures InLong(u, ev, p) { assert Covers(e, p); }
    }
  }

  lemma {:induction false} ShortWindowsLose(u: Units, size: int, overlap: int, lo: nat, i: nat)
    requires u.Valid() && lo <= i <= |u.tokens| && forall k | lo <= k < i :: !u.oversized[k]
    ensures Missed(u, Events(u, size, overlap, lo, i), lo, |u.tokens|) <= 49 * (Oversizes(u, i) + 1)
    decreases |u.tokens| - i
  {
    hide Events, Missed, Sum, Carry;
    var n, ev := |u.tokens|, Events(u, size, overlap, lo, i);
    EventsUnfold(u, size, overlap, lo, i);
    MissedEnds(u, ev, lo, i);
    if i == n {
      if lo < i { WindowLoss(u, ev, Window(Final, lo, i)); }
    } else if u.oversized[i] {
      var rest := Events(u, size, overlap, i + 1, i + 1);
      if lo < i { WindowLoss(u, ev, Window(Flush, lo, i)); }
      ShortWindowsLose(u, size, overlap, i + 1, i + 1);
      MissedLater(u, ev, rest, i + 1, n);
      MissedSplit(u, ev, lo, i, n);
      MissedSplit(u, ev, i, i + 1, n);
    } else if Sum(u.tokens, lo, i + 1) >= size {
      var next := Carry(u.tokens, lo, i + 1, overlap);
      var rest := Events(u, size, overlap, next, i + 1);
      WindowLoss(u, ev, Window(Full, lo, i + 1));
      ShortWindowsLose(u, size, overlap, next, i + 1);
      MissedLater(u, ev, rest, i + 1, n);
      MissedSplit(u, ev, lo, i + 1, n);
      MissedSplit(u, rest, next, i + 1, n);
    } else {
      ShortWindowsLose(u, size, overlap, lo, i + 1);
    }
  }

  lemma MissedEnds(u: Units, ev: seq<Event>, lo: nat, i: nat)
    requires u.Valid() && lo <= i <= |u.tokens|
    ensures Missed(u, ev, lo, lo) == 0
    ensures i < |u.tokens| && u.oversized[i] ==> Missed(u, ev, i, i + 1) == 0
  {}

  /** Paragraph p is in a window that is returned as a chunk. */
  ghost predicate InSomeChunk(c: Chunking, paras: seq<string>, p: nat) {
    exists e :: e in Events(ParagraphUnits(c, paras), c.size, c.overlap, 0, 0) && Covers(e, p) && e.hi <= |paras|
                && Emits(ParagraphChunks(c, paras, 0, 0, 0), WindowText("\n\n", paras, e))
  }

  /** Tokens of the first n paragraphs that fit the chunk size and are in no chunk. */
  ghost function LostTokens(c: Chunking, paras: seq<string>, n: nat): nat
    requires n <= |paras|
  {
    if n == 0 then 0
    else LostTokens(c, paras, n - 1)
         + if c.count(paras[n - 1]) > c.size || InSomeChunk(c, paras, n - 1) then 0 else c.count(paras[n - 1])
  }

  lemma LongIsEmitted(c: Chunking, paras: seq<string>, p: nat)
    requires c.size >= 50 && Superadditive(c.count, "\n\n", paras) && p < |paras|
    requires InLong(ParagraphUnits(c, paras), Events(ParagraphUnits(c, paras), c.size, c.overlap, 0, 0), p)
    ensures InSomeChunk(c, paras, p)
  {
    hide Events, ParagraphChunks, Emits, Sum, Join;
    var u := ParagraphUnits(c, paras);
    var e :| e in Events(u, c.size, c.overlap, 0, 0) && Covers(e, p) && !Short(u, e);
    UnitsDescribe(c, paras);
    WindowsAreRuns(u, c.size, c.overlap, e);
    assert c.count(Join("\n\n", paras[e.lo..e.hi])) >= Sum(Counts(c.count, paras), e.lo, e.hi);
    WindowIsEmitted(c, paras, 0, 0, 0, u, e);
  }

  lemma {:induction false} LostIsMissed(c: Chunking, paras: seq<string>, n: nat)
    requires c.size >= 50 && Superadditive(c.count, "\n\n", paras) && n <= |paras|
    ensures var u := ParagraphUnits(c, paras);
            LostTokens(c, paras, n) <= Missed(u, Events(u, c.size, c.overlap, 0, 0), 0, n)
  {
    hide Events, InLong, InSomeChunk, Superadditive;
    if n > 0 {
      var u := ParagraphUnits(c, paras);
      LostIsMissed(c, paras, n - 1);
      if InLong(u, Events(u, c.size, c.overlap, 0, 0), n - 1) { LongIsEmitted(c, paras, n - 1); }
    }
  }

  /** The paragraphs that fit and are in no returned chunk have at most 49 tokens for every
      oversized paragraph, and 49 more at the end, all together. */
  lemma LossIsBounded(c: Chunking, paras: seq<string>)
    requires c.size >= 50 && Superadditive(c.count, "\n\n", paras)
    ensures LostTokens(c, paras, |paras|) <= 49 * (Oversizes(ParagraphUnits(c, paras), 0) + 1)
  {
    hide Events, Missed, LostTokens, Superadditive;
    var u := ParagraphUnits(c, paras);
    LostIsMissed(c, paras, |paras|);
    ShortWindowsLose(u, c.size, c.overlap, 0, 0);
  }

  // ---- the fallback tokeniser ----

  /** One token per four characters, at least one. */
  function FallbackCount(text: string): (n: nat)
    ensures n >= 1
  {
    if |text| / 4 > 1 then |text| / 4 else 1
  }

  function Lengths(parts: seq<string>): (t: seq<nat>)
    ensures |t| == |parts| && forall k | 0 <= k < |parts| :: t[k] == |parts[k]|
  {
    seq(|parts|, k requires 0 <= k < |parts| => |parts[k]|)
  }

  lemma OneMore(n: nat, s: nat)
    ensures (n + 1) * s == n * s + s && n * s >= 0
  {}

  lemma {:induction false} JoinLength(sep: string, parts: seq<string>, lo: nat, hi: nat)
    requires lo < hi <= |parts|
    ensures |Join(sep, parts[lo..hi])| == Sum(Lengths(parts), lo, hi) + (hi - lo - 1) * |sep|
    decreases hi - lo
  {
    var t := Lengths(parts);
    assert parts[lo..hi][0] == parts[lo];
    SumSplit(t, lo, lo + 1, hi);
    assert Sum(t, lo, lo + 1) == Sum(t, lo, lo) + t[lo] == |parts[lo]|;
    hide Sum, Lengths;
    if hi - lo > 1 {
      JoinLength(sep, parts, lo + 1, hi);
      assert parts[lo..hi][1..] == parts[lo + 1..hi];
      hide Join;
      OneMore(hi - lo - 2, |sep|);
    }
  }

  /** In every run of at least two parts, the characters that rounding costs or lends are
      outweighed by the separators. */
  ghost predicate SeparatorsPay(sep: string, parts: seq<string>) {
    forall lo: nat, hi: nat | lo + 1 < hi <= |parts| ::
      4 * Sum(Counts(FallbackCount, parts), lo, hi) - Sum(Lengths(parts), lo, hi) <= (hi - lo - 1) * |sep|
  }

  lemma {:induction false} AtLeastOneEach(parts: seq<string>, lo: nat, hi: nat)
    requires lo <= hi <= |parts|
    ensures Sum(Counts(FallbackCount, parts), lo, hi) >= hi - lo
    decreases hi
  {
    if lo < hi { AtLeastOneEach(parts, lo, hi - 1); }
  }

  lemma RunCount(sep: string, parts: seq<string>, lo: nat, hi: nat)
    requires lo < hi <= |parts|
    ensures var sum := Sum(Counts(FallbackCount, parts), lo, hi);
            FallbackCount(Join(sep, parts[lo..hi])) >= sum
            <==> hi == lo + 1 || 4 * sum - Sum(Lengths(parts), lo, hi) <= (hi - lo - 1) * |sep|
  {
    var t := Counts(FallbackCount, parts);
    AtLeastOneEach(parts, lo, hi);
    JoinLength(sep, parts, lo, hi);
    if hi == lo + 1 {
      assert parts[lo..hi] == [parts[lo]];
      assert Sum(t, lo, hi) == Sum(t, lo, lo) + t[lo] == FallbackCount(parts[lo]);
    }
  }

  /** When the fallback tokeniser never loses by joining, by lengths alone. */
  lemma FallbackSuperadditiveExactly(sep: string, parts: seq<string>)
    ensures Superadditive(FallbackCount, sep, parts) <==> SeparatorsPay(sep, parts)
  {
    hide FallbackCount, Join, Sum, Counts, Lengths;
    forall lo: nat, hi: nat | lo < hi <= |parts|
      ensures FallbackCount(Join(sep, parts[lo..hi])) >= Sum(Counts(FallbackCount, parts), lo, hi)
              <==> hi == lo + 1
                   || 4 * Sum(Counts(FallbackCount, parts), lo, hi) - Sum(Lengths(parts), lo, hi) <= (hi - lo - 1) * |sep|
    {
      RunCount(sep, parts, lo, hi);
    }
  }

  lemma {:induction false} LongPartsPay(parts: seq<string>, lo: nat, hi: nat)
    requires lo <= hi <= |parts| && forall p | p in parts :: |p| >= 4
    ensures 4 * Sum(Counts(FallbackCount, parts), lo, hi) <= Sum(Lengths(parts), lo, hi)
    decreases hi
  {
    if lo < hi {
      assert parts[hi - 1] in parts;
      LongPartsPay(parts, lo, hi - 1);
    }
  }

  /** So it is on parts of at least four characters. */
  lemma FallbackIsSuperadditive(sep: string, parts: seq<string>)
    requires forall p | p in parts :: |p| >= 4
    ensures Superadditive(FallbackCount, sep, parts)
  {
    hide Superadditive, Sum, Counts, Lengths, FallbackCount;
    FallbackSuperadditiveExactly(sep, parts);
    forall lo: nat, hi: nat | lo + 1 < hi <= |parts|
      ensures 4 * Sum(Counts(FallbackCount, parts), lo, hi) - Sum(Lengths(parts), lo, hi) <= (hi - lo - 1) * |sep|
    {
      LongPartsPay(parts, lo, hi);
      OneMore(hi - lo - 1, |sep|);
    }
  }

  /** It is not superadditive on very short sentences. */
  lemma ShortSentencesCostTokens(parts: seq<string>)
    requires parts == ["A.", "B."]
    ensures !Superadditive(FallbackCount, " ", parts)
  {
    var t := Counts(FallbackCount, parts);
    assert Sum(t, 0, 0) == 0 && Sum(t, 0, 1) == 1 && Sum(t, 0, 2) == 2;
    assert parts[0..2] == parts && parts[1..] == ["B."];
    assert |Join(" ", parts)| == 5;
  }

  /** Coverage for every document, with the fallback tokeniser. */
  lemma FallbackCoverage(c: Chunking, text: string, p: nat)
    requires c.count == FallbackCount && c.size >= 50
    requires p < |Paragraphs(text)| && c.count(Paragraphs(text)[p]) <= c.size
    ensures var paras := Paragraphs(text);
            exists e ::
              && e in Events(ParagraphUnits(c, paras), c.size, c.overlap, 0, 0)
              && Covers(e, p) && e.hi <= |paras|
              && (Emits(Chunks(c, text), WindowText("\n\n", paras, e))
                  || (e.kind != Full && Sum(Counts(c.count, paras), e.lo, e.hi) < 50))
  {
    FallbackIsSuperadditive("\n\n", Paragraphs(text));
    Coverage(c, Paragraphs(text), p);
  }

  /** And so is the loss, for every document. */
  lemma FallbackLoss(c: Chunking, text: string)
    requires c.count == FallbackCount && c.size >= 50
    ensures var paras := Paragraphs(text);
            LostTokens(c, paras, |paras|) <= 49 * (Oversizes(ParagraphUnits(c, paras), 0) + 1)
  {
    hide LostTokens, Superadditive, Oversizes, ParagraphUnits;
    FallbackIsSuperadditive("\n\n", Paragraphs(text));
    LossIsBounded(c, Paragraphs(text));
  }
}
