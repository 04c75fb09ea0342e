// Where _split_into_sentences of retrieval/chunker.py splits: at every sentence break of the
// protected text, and nowhere else.
module SentencePieces {
  import opened Text
  import opened Sentences

  /** White space p[n..m] between a sentence mark and the start of a sentence. */
  ghost predicate BreakAt(p: string, n: nat, m: nat) {
    && 0 < n < m < |p|
    && (p[n - 1] == '.' || p[n - 1] == '!' || p[n - 1] == '?')
    && ('A' <= p[m] <= 'Z' || '0' <= p[m] <= '9' || p[m] == '(')
    && forall k | n <= k < m :: IsSpace(p[k])
  }

  datatype Piece = Piece(lo: nat, hi: nat)

  /** The stretches of p from start to its end that lie between breaks. */
  ghost predicate BetweenBreaks(p: string, start: nat, bs: seq<Piece>) {
    && bs != [] && bs[0].lo == start && bs[|bs| - 1].hi == |p|
    && (forall k | 0 <= k < |bs| :: bs[k].lo <= bs[k].hi <= |p|)
    && (forall k | 0 <= k < |bs| - 1 :: BreakAt(p, bs[k].hi, bs[k + 1].lo))
    && (forall n: nat, m: nat | n > start && BreakAt(p, n, m) :: exists k :: 0 <= k < |bs| - 1 && bs[k].hi == n)
  }

  ghost predicate InOrder(p: string, bs: seq<Piece>, pieces: seq<string>) {
    |pieces| == |bs| && forall k | 0 <= k < |bs| :: bs[k].lo <= bs[k].hi <= |p| && pieces[k] == p[bs[k].lo..bs[k].hi]
  }

  lemma {:induction false} SpaceRunIs(t: string, n: nat)
    requires n < |t| && (forall k | 0 <= k < n :: IsSpace(t[k])) && !IsSpace(t[n])
    ensures SpaceRun(t) == n
  {
    hide IsSpace;
    var r := SpaceRun(t);
    assert !(r < n) && !(n < r);
  }

  lemma MarksAreNoSpace(c: char)
    ensures SentenceEnd(c) || SentenceStart(c) ==> !IsSpace(c)
  {}

  /** The splitter stops exactly at breaks. */
  lemma SplitsAtBreak(p: string, i: nat, q: nat, m: nat)
    requires i <= q <= |p|
    ensures i < q && BreakAt(p, q, m) ==> SplitsHere(p[i..q], p[q..]) && m == q + SpaceRun(p[q..])
    ensures SplitsHere(p[i..q], p[q..]) ==>
              i < q && BreakAt(p, q, q + SpaceRun(p[q..])) && 0 < SpaceRun(p[q..]) < |p| - q
  {
    hide IsSpace, SpaceRun;
    var cur, t := p[i..q], p[q..];
    assert i < q ==> cur[|cur| - 1] == p[q - 1];
    assert forall k | q <= k < |p| :: p[k] == t[k - q];
    if i < q && BreakAt(p, q, m) {
      MarksAreNoSpace(p[m]);
      SpaceRunIs(t, m - q);
    }
  }

  lemma RawStep(cur: string, t: string)
    ensures SplitRaw(cur, t) == if t == [] then [cur]
                                else if SplitsHere(cur, t) then [cur] + SplitRaw([], t[SpaceRun(t)..])
                                else SplitRaw(cur + [t[0]], t[1..])
  {}

  lemma {:induction false} PiecesFrom(p: string, i: nat, q: nat) returns (bs: seq<Piece>)
    requires i <= q <= |p| && forall n: nat, m: nat | i < n < q :: !BreakAt(p, n, m)
    ensures BetweenBreaks(p, i, bs) && InOrder(p, bs, SplitRaw(p[i..q], p[q..]))
    decreases |p| - q
  {
    hide BreakAt, SplitsHere, SpaceRun, SplitRaw, BetweenBreaks;
    var t := p[q..];
    RawStep(p[i..q], t);
    if q == |p| {
      bs := [Piece(i, q)];
      LastPiece(p, i);
    } else if SplitsHere(p[i..q], t) {
      var m := q + SpaceRun(t);
      SplitsAtBreak(p, i, q, m);
      var more := PiecesFrom(p, m, m);
      assert p[m..m] == [] && t[SpaceRun(t)..] == p[m..];
      bs := [Piece(i, q)] + more;
      FirstPiece(p, i, q, m, more);
    } else {
      forall m: nat ensures i < q ==> !BreakAt(p, q, m) { SplitsAtBreak(p, i, q, m); }
      bs := PiecesFrom(p, i, q + 1);
      assert p[i..q] + [t[0]] == p[i..q + 1] && t[1..] == p[q + 1..];
    }
  }

  lemma LastPiece(p: string, i: nat)
    requires i <= |p| && forall n: nat, m: nat | i < n < |p| :: !BreakAt(p, n, m)
    ensures BetweenBreaks(p, i, [Piece(i, |p|)])
  {
    hide IsSpace, SentenceEnd, SentenceStart;
  }

  lemma FirstPiece(p: string, i: nat, q: nat, m: nat, more: seq<Piece>)
    requires i < q && BreakAt(p, q, m) && BetweenBreaks(p, m, more)
    requires forall n: nat, o: nat | i < n < q :: !BreakAt(p, n, o)
    ensures BetweenBreaks(p, i, [Piece(i, q)] + more)
  {
    hide IsSpace;
    var bs := [Piece(i, q)] + more;
    forall k | 0 <= k < |bs| - 1 ensures BreakAt(p, bs[k].hi, bs[k + 1].lo) {
      if k > 0 { assert bs[k] == more[k - 1] && bs[k + 1] == more[k]; }
    }
    forall n: nat, o: nat | n > i && BreakAt(p, n, o) ensures exists k :: 0 <= k < |bs| - 1 && bs[k].hi == n {
      if n <= m {
        if n > q { MarksAreNoSpace(p[n - 1]); }
        assert bs[0].hi == n;
      } else {
        var k :| 0 <= k < |more| - 1 && more[k].hi == n;
        assert bs[k + 1].hi == n;
      }
    }
  }

  /** The raw pieces are exactly the stretches between sentence breaks. */
  lemma RawPieces(p: string) returns (bs: seq<Piece>)
    ensures BetweenBreaks(p, 0, bs) && InOrder(p, bs, SplitRaw([], p))
  {
    hide BreakAt, SplitRaw;
    bs := PiecesFrom(p, 0, 0);
    assert p[0..0] == [] && p[0..] == p;
  }

  // ---- text without abbreviations ----

  lemma {:induction false} NothingProtected(abbrs: Abbreviations, bar: string, text: string, i: nat)
    requires i <= |abbrs| && forall j, k: nat | 0 <= j < |abbrs| && k < |text| :: !(abbrs[j] <= text[k..])
    ensures ProtectFrom(abbrs, bar, text, i) == text
    decreases |abbrs| - i
  {
    hide Replace, Placeholder;
    if i < |abbrs| {
      CopiedWhole(text, abbrs[i], Placeholder(bar, i));
      NothingProtected(abbrs, bar, text, i + 1);
    }
  }

  lemma CopiedWhole(text: string, pat: string, rep: string)
    requires pat != [] && forall k: nat | k < |text| :: !(pat <= text[k..])
    ensures Replace(text, pat, rep) == text
  {
    hide Replace;
    assert text + [] == text;
    ReplaceSkips(text, [], pat, rep);
    assert Replace([], pat, rep) == [] by { EmptyReplaced(pat, rep); }
  }

  lemma EmptyReplaced(pat: string, rep: string)
    requires pat != []
    ensures Replace([], pat, rep) == []
  {}

  lemma {:induction false} NothingRestored(abbrs: Abbreviations, bar: string, s: string, i: nat)
    requires i <= |abbrs| && bar != [] && bar[0] !in s
    ensures RestoreFrom(abbrs, bar, s, i) == s
    decreases |abbrs| - i
  {
    hide Replace, Core;
    if i < |abbrs| {
      forall k: nat | k < |s| ensures !(Placeholder(bar, i) <= s[k..]) { assert s[k..][0] == s[k]; }
      CopiedWhole(s, Placeholder(bar, i), abbrs[i]);
      NothingRestored(abbrs, bar, s, i + 1);
    }
  }

  /** The stretches without the white space around them, empty ones left out. */
  ghost function Trimmed(p: string, bs: seq<Piece>): seq<string>
    requires forall b <- bs :: b.lo <= b.hi <= |p|
  {
    if bs == [] then []
    else
      var s := Strip(p[bs[0].lo..bs[0].hi]);
      (if s != [] then [s] else []) + Trimmed(p, bs[1..])
  }

  lemma {:induction false} RestoredIsTrimmed(abbrs: Abbreviations, bar: string, p: string, bs: seq<Piece>, raw: seq<string>)
    requires bar != [] && bar[0] !in p && InOrder(p, bs, raw)
    ensures forall b <- bs :: b.lo <= b.hi <= |p|
    ensures Restored(abbrs, bar, raw) == Trimmed(p, bs)
  {
    hide RestoreFrom, Strip;
    if bs != [] {
      NothingRestored(abbrs, bar, raw[0], 0);
      RestoredIsTrimmed(abbrs, bar, p, bs[1..], raw[1..]);
    }
  }

  /** In text with neither an abbreviation nor an underscore the sentences are exactly the
      stretches between sentence breaks. */
  lemma PlainSentences(abbrs: Abbreviations, text: string) returns (bs: seq<Piece>)
    requires '_' !in text && forall j, k: nat | 0 <= j < |abbrs| && k < |text| :: !(abbrs[j] <= text[k..])
    ensures BetweenBreaks(text, 0, bs) && forall b <- bs :: b.lo <= b.hi <= |text|
    ensures SplitWith(abbrs, "__", text) == if Trimmed(text, bs) == [] then [text] else Trimmed(text, bs)
  {
    hide BetweenBreaks, SplitRaw, ProtectFrom, Restored, Trimmed;
    var bar := "__";
    bs := RawPieces(text);
    NothingProtected(abbrs, bar, text, 0);
    RestoredIsTrimmed(abbrs, bar, text, bs, SplitRaw([], text));
  }
}
