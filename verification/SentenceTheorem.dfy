// The exact condition under which _split_into_sentences keeps every non-space character.
module SentenceTheorem {
  import opened Text
  import opened Decimal
  import opened Sentences
  import opened SentenceProofs

  // ---- splitting, on tokens ----

  function SpaceToks(ts: seq<Tok>): (n: nat)
    ensures n <= |ts| && forall k | 0 <= k < n :: ts[k].Ch? && IsSpace(ts[k].c)
  {
    if ts != [] && ts[0].Ch? && IsSpace(ts[0].c) then 1 + SpaceToks(ts[1..]) else 0
  }

  predicate CutsAt(cur: seq<Tok>, ts: seq<Tok>) {
    SplitsHere(Enc(cur), Enc(ts)) && SpaceToks(ts) > 0
  }

  function SplitToks(cur: seq<Tok>, ts: seq<Tok>): seq<seq<Tok>>
    decreases |ts|
  {
    if ts == [] then [cur]
    else if CutsAt(cur, ts) then [cur] + SplitToks([], ts[SpaceToks(ts)..])
    else SplitToks(cur + [ts[0]], ts[1..])
  }

  function EncAll(pieces: seq<seq<Tok>>): seq<string> {
    if pieces == [] then [] else [Enc(pieces[0])] + EncAll(pieces[1..])
  }

  lemma {:induction false} SpaceToksRead(ts: seq<Tok>)
    ensures SpaceRun(Enc(ts)) == SpaceToks(ts)
    ensures Enc(ts[SpaceToks(ts)..]) == Enc(ts)[SpaceToks(ts)..]
    decreases |ts|
  {
    if ts != [] && ts[0].Ch? && IsSpace(ts[0].c) {
      SpaceToksRead(ts[1..]);
      assert Enc(ts)[1..] == Enc(ts[1..]);
      assert ts[SpaceToks(ts)..] == ts[1..][SpaceToks(ts[1..])..];
    }
  }

  /** Reading text without white space never splits. */
  lemma {:induction false} SplitSkips(cur: string, x: string, t: string)
    requires forall k | 0 <= k < |x| :: !IsSpace(x[k])
    ensures SplitRaw(cur, x + t) == SplitRaw(cur + x, t)
    decreases |x|
  {
    if x == [] {
      assert x + t == t && cur + x == cur;
    } else {
      assert (x + t)[0] == x[0] && (x + t)[1..] == x[1..] + t;
      SplitSkips(cur + [x[0]], x[1..], t);
      assert cur + [x[0]] + x[1..] == cur + x;
    }
  }

  lemma {:induction false} SplitEnc(cur: seq<Tok>, ts: seq<Tok>)
    ensures SplitRaw(Enc(cur), Enc(ts)) == EncAll(SplitToks(cur, ts))
    decreases |ts|
  {
    hide Placeholder, SplitsHere, SpaceRun;
    if ts == [] {
      assert EncAll([cur]) == [Enc(cur)] + EncAll([]);
    } else {
      SpaceToksRead(ts);
      if CutsAt(cur, ts) {
        SplitEnc([], ts[SpaceToks(ts)..]);
        EncAllCons(cur, SplitToks([], ts[SpaceToks(ts)..]));
      } else {
        NextTokReads(cur, ts);
        SplitEnc(cur + [ts[0]], ts[1..]);
      }
    }
  }

  lemma NextTokReads(cur: seq<Tok>, ts: seq<Tok>)
    requires ts != [] && !CutsAt(cur, ts)
    ensures SplitRaw(Enc(cur), Enc(ts)) == SplitRaw(Enc(cur + [ts[0]]), Enc(ts[1..]))
  {
    hide Placeholder;
    SpaceToksRead(ts);
    EncConcat(cur, [ts[0]]);
    assert Enc([ts[0]]) == TokText(ts[0]) + Enc([]) == TokText(ts[0]);
    if ts[0].Ph? {
      PlaceholderHasNoSpace(ts[0].i);
      SplitSkips(Enc(cur), TokText(ts[0]), Enc(ts[1..]));
    } else {
      assert Enc(ts)[1..] == Enc(ts[1..]);
    }
  }

  lemma PlaceholderHasNoSpace(i: nat)
    ensures forall k | 0 <= k < |Placeholder("_", i)| :: !IsSpace(Placeholder("_", i)[k])
  {
    CoreShape(i);
  }

  lemma EncAllCons(p: seq<Tok>, ps: seq<seq<Tok>>)
    ensures EncAll([p] + ps) == [Enc(p)] + EncAll(ps)
  {
    assert ([p] + ps)[1..] == ps;
  }

  lemma LastIsSentenceEnd(cur: seq<Tok>, ts: seq<Tok>)
    requires CutsAt(cur, ts)
    ensures SpaceToks(ts) > 0
    ensures cur != [] && cur[|cur| - 1].Ch? && SentenceEnd(cur[|cur| - 1].c)
  {
    var init, last := cur[..|cur| - 1], cur[|cur| - 1];
    assert cur == init + [last];
    EncConcat(init, [last]);
    assert Enc([last]) == TokText(last) + Enc([]) == TokText(last);
  }

  /** The piece is the run m..n of the tokens; it ends in a sentence mark of its own and is
      followed by white space. */
  predicate IsRun(all: seq<Tok>, piece: seq<Tok>, m: nat, n: nat) {
    && m < n < |all| && piece == all[m..n]
    && all[n - 1].Ch? && SentenceEnd(all[n - 1].c) && all[n].Ch? && IsSpace(all[n].c)
  }

  lemma {:induction false} PieceRun(cur: seq<Tok>, ts: seq<Tok>, k: nat) returns (m: nat, n: nat)
    requires k < |SplitToks(cur, ts)| - 1
    ensures IsRun(cur + ts, SplitToks(cur, ts)[k], m, n)
    decreases |ts|
  {
    hide CutsAt, SplitToks, IsRun;
    SplitToksEnd(cur);
    assert ts != [];
    SplitToksUnfold(cur, ts);
    if CutsAt(cur, ts) {
      if k == 0 {
        m, n := 0, |cur|;
        CutIsRun(cur, ts);
      } else {
        var spaces := SpaceToks(ts);
        m, n := PieceRun([], ts[spaces..], k - 1);
        RunShifts(cur, ts, spaces, SplitToks(cur, ts)[k], m, n);
        m, n := m + |cur| + spaces, n + |cur| + spaces;
      }
    } else {
      m, n := PieceRun(cur + [ts[0]], ts[1..], k);
      TakeNext(cur, ts, 0);
    }
  }

  lemma CutIsRun(cur: seq<Tok>, ts: seq<Tok>)
    requires CutsAt(cur, ts)
    ensures IsRun(cur + ts, cur, 0, |cur|)
  {
    LastIsSentenceEnd(cur, ts);
    hide CutsAt;
    assert (cur + ts)[..|cur|] == cur && (cur + ts)[|cur|] == ts[0];
  }

  lemma RunShifts(cur: seq<Tok>, ts: seq<Tok>, spaces: nat, piece: seq<Tok>, m: nat, n: nat)
    requires spaces <= |ts| && IsRun([] + ts[spaces..], piece, m, n)
    ensures IsRun(cur + ts, piece, m + |cur| + spaces, n + |cur| + spaces)
  {
    assert [] + ts[spaces..] == ts[spaces..] == (cur + ts)[|cur| + spaces..];
  }

  // ---- the pieces hold all of the text but white space, and all of the strays ----

  ghost predicate PiecesWellFormed(abbrs: Abbreviations, pieces: seq<seq<Tok>>) {
    forall p | p in pieces :: WellFormed(abbrs, p)
  }

  function PlainAll(abbrs: Abbreviations, pieces: seq<seq<Tok>>): string
    requires PiecesWellFormed(abbrs, pieces)
  {
    if pieces == [] then [] else
      assert pieces[0] in pieces;
      Plain(abbrs, pieces[0]) + PlainAll(abbrs, pieces[1..])
  }

  lemma {:induction false} SpacesAreBlank(abbrs: Abbreviations, ts: seq<Tok>)
    requires WellFormed(abbrs, ts) && forall k | 0 <= k < |ts| :: ts[k].Ch? && IsSpace(ts[k].c)
    ensures NonSpace(Plain(abbrs, ts)) == []
    decreases |ts|
  {
    if ts != [] {
      SpacesAreBlank(abbrs, ts[1..]);
      assert Plain(abbrs, ts)[1..] == Plain(abbrs, ts[1..]);
    }
  }

  lemma CutKeepsText(abbrs: Abbreviations, cur: seq<Tok>, ws: seq<Tok>, rest: seq<Tok>, pieces: seq<seq<Tok>>)
    requires WellFormed(abbrs, cur) && WellFormed(abbrs, ws) && WellFormed(abbrs, rest)
    requires PiecesWellFormed(abbrs, pieces)
    requires forall k | 0 <= k < |ws| :: ws[k].Ch? && IsSpace(ws[k].c)
    requires NonSpace(PlainAll(abbrs, pieces)) == NonSpace(Plain(abbrs, rest))
    ensures WellFormed(abbrs, cur + (ws + rest)) && PiecesWellFormed(abbrs, [cur] + pieces)
    ensures NonSpace(PlainAll(abbrs, [cur] + pieces)) == NonSpace(Plain(abbrs, cur + (ws + rest)))
  {
    hide Plain, NonSpace;
    assert ([cur] + pieces)[1..] == pieces;
    PlainConcat(abbrs, ws, rest);
    PlainConcat(abbrs, cur, ws + rest);
    SpacesAreBlank(abbrs, ws);
    NonSpaceConcat(Plain(abbrs, cur), PlainAll(abbrs, pieces));
    NonSpaceConcat(Plain(abbrs, cur), Plain(abbrs, ws + rest));
    NonSpaceConcat(Plain(abbrs, ws), Plain(abbrs, rest));
    Uncons<char>([], NonSpace(Plain(abbrs, rest)));
  }

  lemma SplitToksUnfold(cur: seq<Tok>, ts: seq<Tok>)
    requires ts != []
    ensures SplitToks(cur, ts) == if CutsAt(cur, ts) then [cur] + SplitToks([], ts[SpaceToks(ts)..])
                                  else SplitToks(cur + [ts[0]], ts[1..])
    ensures CutsAt(cur, ts) ==> SpaceToks(ts) > 0
  {}

  lemma SplitToksEnd(cur: seq<Tok>)
    ensures SplitToks(cur, []) == [cur]
  {}

  lemma TakeNext(cur: seq<Tok>, ts: seq<Tok>, n: nat)
    requires ts != [] && n <= |ts|
    ensures cur + ts == cur + [ts[0]] + ts[1..]
    ensures ts == ts[..n] + ts[n..]
  {}

  lemma {:induction false} PiecesKeepText(abbrs: Abbreviations, cur: seq<Tok>, ts: seq<Tok>)
    requires WellFormed(abbrs, cur) && WellFormed(abbrs, ts)
    ensures PiecesWellFormed(abbrs, SplitToks(cur, ts))
    ensures WellFormed(abbrs, cur + ts)
    ensures NonSpace(PlainAll(abbrs, SplitToks(cur, ts))) == NonSpace(Plain(abbrs, cur + ts))
    decreases |ts|
  {
    hide SplitToks, CutsAt, NonSpace, Plain;
    SplitToksEnd(cur);
    if ts == [] {
      assert cur + ts == cur;
      assert PlainAll(abbrs, [cur]) == Plain(abbrs, cur) + PlainAll(abbrs, []) == Plain(abbrs, cur);
    } else {
      SplitToksUnfold(cur, ts);
      TakeNext(cur, ts, SpaceToks(ts));
      if CutsAt(cur, ts) {
        var n := SpaceToks(ts);
        PiecesKeepText(abbrs, [], ts[n..]);
        Uncons<Tok>([], ts[n..]);
        CutKeepsText(abbrs, cur, ts[..n], ts[n..], SplitToks([], ts[n..]));
      } else {
        assert ts[0] in ts;
        PiecesKeepText(abbrs, cur + [ts[0]], ts[1..]);
      }
    }
  }

  predicate PiecesStray(pieces: seq<seq<Tok>>, m: nat) {
    pieces != [] && (Stray(pieces[0], m) || PiecesStray(pieces[1..], m))
  }

  lemma {:induction false} FollowsStopsAtSpace(a: seq<Tok>, b: seq<Tok>, w: string, m: nat)
    requires b != [] && b[0].Ch? && IsSpace(b[0].c) && forall k | 0 <= k < |w| :: !IsSpace(w[k])
    ensures Follows(a + b, w, m) == Follows(a, w, m)
    decreases |w|
  {
    if a == [] { assert a + b == b; }
    else if w != [] {
      assert (a + b)[1..] == a[1..] + b;
      FollowsStopsAtSpace(a[1..], b, w[1..], m);
    }
  }

  lemma {:induction false} StrayStopsAtSpace(a: seq<Tok>, ws: seq<Tok>, b: seq<Tok>, m: nat)
    requires forall k | 0 <= k < |ws| :: ws[k].Ch? && IsSpace(ws[k].c)
    requires a != [] ==> ws != []
    ensures Stray(a + (ws + b), m) == (Stray(a, m) || Stray(b, m))
    decreases |a|, |ws|
  {
    if a != [] {
      assert (a + (ws + b))[1..] == a[1..] + (ws + b);
      CoreShape(m);
      FollowsStopsAtSpace(a[1..], ws + b, Core(m), m);
      StrayStopsAtSpace(a[1..], ws, b, m);
    } else {
      assert a + (ws + b) == ws + b;
      if ws == [] { assert ws + b == b; }
      else {
        assert (ws + b)[1..] == ws[1..] + b == [] + (ws[1..] + b);
        StrayStopsAtSpace([], ws[1..], b, m);
      }
    }
  }

  lemma PiecesStrayCons(p: seq<Tok>, ps: seq<seq<Tok>>, m: nat)
    ensures PiecesStray([p] + ps, m) == (Stray(p, m) || PiecesStray(ps, m))
  {
    assert ([p] + ps)[1..] == ps;
  }

  lemma {:induction false} PiecesKeepStrays(cur: seq<Tok>, ts: seq<Tok>, m: nat)
    ensures PiecesStray(SplitToks(cur, ts), m) == Stray(cur + ts, m)
    decreases |ts|
  {
    hide Stray, CutsAt, SplitToks;
    SplitToksEnd(cur);
    if ts == [] {
      PiecesStrayCons(cur, [], m);
      assert cur + ts == cur && [cur] + [] == [cur];
    } else {
      SplitToksUnfold(cur, ts);
      TakeNext(cur, ts, SpaceToks(ts));
      if CutsAt(cur, ts) {
        var n := SpaceToks(ts);
        PiecesKeepStrays([], ts[n..], m);
        PiecesStrayCons(cur, SplitToks([], ts[n..]), m);
        Uncons<Tok>([], ts[n..]);
        StrayStopsAtSpace(cur, ts[..n], ts[n..], m);
      } else {
        PiecesKeepStrays(cur + [ts[0]], ts[1..], m);
      }
    }
  }

  predicate AnyPieceStray(abbrs: Abbreviations, pieces: seq<seq<Tok>>, i: nat)
    requires i <= |abbrs|
    decreases |abbrs| - i
  {
    i < |abbrs| && (PiecesStray(pieces, i) || AnyPieceStray(abbrs, pieces, i + 1))
  }

  lemma {:induction false} AnyPieceStrayIsAnyStray(abbrs: Abbreviations, ts: seq<Tok>, i: nat)
    requires i <= |abbrs|
    ensures AnyPieceStray(abbrs, SplitToks([], ts), i) == AnyStray(abbrs, ts, i)
    decreases |abbrs| - i
  {
    if i < |abbrs| {
      PiecesKeepStrays([], ts, i);
      assert [] + ts == ts;
      AnyPieceStrayIsAnyStray(abbrs, ts, i + 1);
    }
  }

  lemma {:induction false} AnyPieceStrayCons(abbrs: Abbreviations, pieces: seq<seq<Tok>>, i: nat)
    requires i <= |abbrs| && pieces != []
    ensures AnyPieceStray(abbrs, pieces, i) == (AnyStray(abbrs, pieces[0], i) || AnyPieceStray(abbrs, pieces[1..], i))
    decreases |abbrs| - i
  {
    if i < |abbrs| { AnyPieceStrayCons(abbrs, pieces, i + 1); }
  }

  lemma {:induction false} NoPiecesNoStray(abbrs: Abbreviations, i: nat)
    requires i <= |abbrs|
    ensures !AnyPieceStray(abbrs, [], i)
    decreases |abbrs| - i
  {
    if i < |abbrs| { NoPiecesNoStray(abbrs, i + 1); }
  }

  lemma NonSpaceHead(abbrs: Abbreviations, bar: string, raw: seq<string>)
    requires raw != []
    ensures NonSpace(Flatten(Restored(abbrs, bar, raw)))
         == NonSpace(RestoreFrom(abbrs, bar, raw[0], 0)) + NonSpace(Flatten(Restored(abbrs, bar, raw[1..])))
  {
    var s, rest := Strip(RestoreFrom(abbrs, bar, raw[0], 0)), Restored(abbrs, bar, raw[1..]);
    NonSpaceStrip(RestoreFrom(abbrs, bar, raw[0], 0));
    assert ([s] + rest)[1..] == rest;
    NonSpaceConcat(s, Flatten(rest));
    if s == [] { assert [] + rest == rest; }
  }

  /** Restoring all pieces gives back their plain text, unless one has a stray: then an
      underscore stays. */
  lemma {:induction false} RestorePieces(abbrs: Abbreviations, pieces: seq<seq<Tok>>)
    requires PiecesWellFormed(abbrs, pieces)
    ensures var out := NonSpace(Flatten(Restored(abbrs, "_", EncAll(pieces))));
            if AnyPieceStray(abbrs, pieces, 0) then '_' in out
            else out == NonSpace(PlainAll(abbrs, pieces))
    decreases |pieces|
  {
    if pieces == [] {
      NoPiecesNoStray(abbrs, 0);
    } else {
      var p, rest := pieces[0], pieces[1..];
      assert p in pieces && pieces == [p] + rest;
      RestorePieces(abbrs, rest);
      RestoreExactly(abbrs, p, 0);
      AnyPieceStrayCons(abbrs, pieces, 0);
      EncAllCons(p, rest);
      assert EncAll(pieces)[1..] == EncAll(rest);
      NonSpaceHead(abbrs, "_", EncAll(pieces));
      NonSpaceMembers(RestoreFrom(abbrs, "_", Enc(p), 0), '_');
      NonSpaceConcat(Plain(abbrs, p), PlainAll(abbrs, rest));
    }
  }

  // ---- from "_" to "__" ----

  function Double(s: string): string {
    if s == [] then [] else (if s[0] == '_' then "__" else [s[0]]) + Double(s[1..])
  }

  function DoubleAll(ss: seq<string>): seq<string> {
    if ss == [] then [] else [Double(ss[0])] + DoubleAll(ss[1..])
  }

  lemma {:induction false} DoubleConcat(a: string, b: string)
    ensures Double(a + b) == Double(a) + Double(b)
    decreases |a|
  {
    Uncons(a, b);
    if a == [] {
      Uncons<char>([], Double(b));
    } else {
      DoubleConcat(a[1..], b);
      Assoc(if a[0] == '_' then "__" else [a[0]], Double(a[1..]), Double(b));
    }
  }

  lemma {:induction false} DoubleOfPlain(s: string)
    ensures '_' in Double(s) <==> '_' in s
    ensures '_' !in s ==> Double(s) == s
    decreases |s|
  {
    if s != [] {
      DoubleOfPlain(s[1..]);
      assert s == [s[0]] + s[1..];
    }
  }

  lemma DoublePlaceholder(i: nat)
    ensures Double(Placeholder("_", i)) == Placeholder("__", i)
  {
    CoreShape(i);
    DoubleOfPlain(Core(i));
    DoubleConcat("_" + Core(i), "_");
    DoubleConcat("_", Core(i));
    assert Double("_") == "__" + Double([]) == "__";
  }

  lemma PrefixHeads(x: string, p: string, s: string)
    ensures x + p <= x + s <==> p <= s
  {
    if p <= s { assert s == p + s[|p|..]; assert x + s == (x + p) + s[|p|..]; }
    if x + p <= x + s {
      assert forall k | 0 <= k < |p| :: p[k] == (x + p)[|x| + k] == (x + s)[|x| + k] == s[k];
    }
  }

  lemma {:induction false} DoublePrefix(p: string, s: string)
    ensures Double(p) <= Double(s) <==> p <= s
    decreases |p|
  {
    if p != [] && s != [] {
      var x := if p[0] == '_' then "__" else [p[0]];
      assert p == [p[0]] + p[1..] && s == [s[0]] + s[1..];
      if p[0] == s[0] {
        DoublePrefix(p[1..], s[1..]);
        PrefixCons(p[0], p[1..], s[1..]);
        PrefixHeads(x, Double(p[1..]), Double(s[1..]));
      } else {
        assert Double(p)[0] == p[0] && Double(s)[0] == s[0];
      }
    }
  }

  /** Neither underscore of a doubled one can start a match that a single one does not. */
  lemma ReplaceOverDoubled(rest: string, pat: string, rep: string)
    requires pat != [] && (pat[0] == '_' ==> |pat| > 1 && pat[1] != '_')
    requires !(Double(pat) <= "__" + Double(rest))
    ensures Double(pat) != []
    ensures Replace("__" + Double(rest), Double(pat), rep) == "__" + Replace(Double(rest), Double(pat), rep)
  {
    var p, t := Double(pat), "_" + Double(rest);
    assert p[0] == pat[0];
    assert !(p <= t) by {
      if pat[0] == '_' {
        assert p[1] == '_' && p[2] == Double(pat[1..])[0] == pat[1];
        assert rest != [] && rest[0] == '_' ==> t[2] == '_';
      }
    }
    assert t[1..] == Double(rest) && ("__" + Double(rest))[1..] == t;
    assert Replace(t, p, rep) == "_" + Replace(Double(rest), p, rep);
  }

  lemma {:induction false} DoubleReplace(s: string, pat: string, rep: string)
    requires pat != [] && (pat[0] == '_' ==> |pat| > 1 && pat[1] != '_')
    ensures Double(pat) != [] && Replace(Double(s), Double(pat), Double(rep)) == Double(Replace(s, pat, rep))
    decreases |s|
  {
    if s != [] {
      DoublePrefix(pat, s);
      if pat <= s {
        var rest := s[|pat|..];
        assert s == pat + rest;
        DoubleConcat(pat, rest);
        DoubleReplace(rest, pat, rep);
        ReplaceHit(Double(pat), Double(rest), Double(rep));
        DoubleConcat(rep, Replace(rest, pat, rep));
      } else {
        DoubleReplace(s[1..], pat, rep);
        DoubleCons(s[0], s[1..]);
        DoubleCons(s[0], Replace(s[1..], pat, rep));
        assert s == [s[0]] + s[1..];
        if s[0] == '_' {
          ReplaceOverDoubled(s[1..], pat, Double(rep));
        } else {
          assert Double(s)[1..] == Double(s[1..]);
        }
      }
    }
  }

  lemma DoubleCons(c: char, s: string)
    ensures Double([c] + s) == (if c == '_' then "__" else [c]) + Double(s)
  {
    assert ([c] + s)[1..] == s;
  }

  lemma {:induction false} DoubleProtect(abbrs: Abbreviations, s: string, i: nat)
    requires i <= |abbrs|
    ensures ProtectFrom(abbrs, "__", Double(s), i) == Double(ProtectFrom(abbrs, "_", s, i))
    decreases |abbrs| - i
  {
    if i < |abbrs| {
      var a := abbrs[i];
      assert a[0] in a;
      DoubleOfPlain(a);
      DoublePlaceholder(i);
      DoubleReplace(s, a, Placeholder("_", i));
      DoubleProtect(abbrs, Replace(s, a, Placeholder("_", i)), i + 1);
    }
  }

  lemma {:induction false} DoubleRestore(abbrs: Abbreviations, s: string, i: nat)
    requires i <= |abbrs|
    ensures RestoreFrom(abbrs, "__", Double(s), i) == Double(RestoreFrom(abbrs, "_", s, i))
    decreases |abbrs| - i
  {
    if i < |abbrs| {
      var a, p := abbrs[i], Placeholder("_", i);
      CoreShape(i);
      assert p[1] == Core(i)[0];
      DoubleOfPlain(a);
      DoublePlaceholder(i);
      DoubleReplace(s, p, a);
      DoubleRestore(abbrs, Replace(s, p, a), i + 1);
    }
  }

  lemma {:induction false} DoubleSpaceRun(t: string)
    ensures SpaceRun(Double(t)) == SpaceRun(t)
    ensures Double(t)[SpaceRun(Double(t))..] == Double(t[SpaceRun(t)..])
    decreases |t|
  {
    if t != [] && IsSpace(t[0]) {
      DoubleSpaceRun(t[1..]);
      assert Double(t)[1..] == Double(t[1..]);
      assert t[SpaceRun(t)..] == t[1..][SpaceRun(t[1..])..];
    }
  }

  lemma DoubleEnds(s: string)
    requires s != []
    ensures Double(s) != [] && Double(s)[0] == s[0] && Double(s)[|Double(s)| - 1] == s[|s| - 1]
    ensures Double(s) == Double(s[..|s| - 1]) + (if s[|s| - 1] == '_' then "__" else [s[|s| - 1]])
  {
    var last := [s[|s| - 1]];
    assert s == s[..|s| - 1] + last;
    DoubleConcat(s[..|s| - 1], last);
    assert Double(last) == (if last[0] == '_' then "__" else last) + Double([]);
  }

  lemma DoubleSplitsHere(cur: string, t: string)
    ensures SplitsHere(Double(cur), Double(t)) == SplitsHere(cur, t)
    ensures t != [] ==> Double(t) != []
  {
    DoubleSpaceRun(t);
    if cur != [] { DoubleEnds(cur); }
    if t != [] { DoubleEnds(t); }
    if SpaceRun(t) < |t| {
      DoubleEnds(t[SpaceRun(t)..]);
      assert Double(t)[SpaceRun(t)] == Double(t)[SpaceRun(t)..][0];
    }
  }

  lemma SplitReadsDoubled(cur: string, t: string)
    requires t != [] && !SplitsHere(cur, t)
    ensures SplitRaw(Double(cur), Double(t)) == SplitRaw(Double(cur + [t[0]]), Double(t[1..]))
  {
    var head := if t[0] == '_' then "__" else [t[0]];
    DoubleSplitsHere(cur, t);
    DoubleConcat(cur, [t[0]]);
    assert Double([t[0]]) == head + Double([]) == head;
    if t[0] == '_' {
      SplitSkips(Double(cur), head, Double(t[1..]));
    } else {
      assert Double(t)[1..] == Double(t[1..]);
    }
  }

  lemma {:induction false} DoubleSplit(cur: string, t: string)
    ensures SplitRaw(Double(cur), Double(t)) == DoubleAll(SplitRaw(cur, t))
    decreases |t|
  {
    if t == [] {
      assert DoubleAll([cur]) == [Double(cur)] + DoubleAll([]);
    } else if SplitsHere(cur, t) {
      var rest := t[SpaceRun(t)..];
      DoubleSplitsHere(cur, t);
      DoubleSpaceRun(t);
      DoubleSplit([], rest);
      assert ([cur] + SplitRaw([], rest))[1..] == SplitRaw([], rest);
    } else {
      SplitReadsDoubled(cur, t);
      DoubleSplit(cur + [t[0]], t[1..]);
    }
  }

  lemma {:induction false} DoubleLStrip(s: string)
    ensures LStrip(Double(s)) == Double(LStrip(s))
    decreases |s|
  {
    if s != [] {
      DoubleEnds(s);
      if IsSpace(s[0]) {
        DoubleLStrip(s[1..]);
        assert Double(s)[1..] == Double(s[1..]);
      }
    }
  }

  lemma {:induction false} DoubleRStrip(s: string)
    ensures RStrip(Double(s)) == Double(RStrip(s))
    decreases |s|
  {
    if s != [] {
      DoubleEnds(s);
      if IsSpace(s[|s| - 1]) {
        DoubleRStrip(s[..|s| - 1]);
        assert Double(s)[..|Double(s)| - 1] == Double(s[..|s| - 1]);
      }
    }
  }

  lemma {:induction false} DoubleRestored(abbrs: Abbreviations, raw: seq<string>)
    ensures Restored(abbrs, "__", DoubleAll(raw)) == DoubleAll(Restored(abbrs, "_", raw))
    decreases |raw|
  {
    if raw != [] {
      var r := RestoreFrom(abbrs, "_", raw[0], 0);
      DoubleRestore(abbrs, raw[0], 0);
      DoubleLStrip(r);
      DoubleRStrip(LStrip(r));
      if Strip(r) != [] { DoubleEnds(Strip(r)); }
      DoubleRestored(abbrs, raw[1..]);
      assert DoubleAll(raw)[1..] == DoubleAll(raw[1..]);
      var rest := Restored(abbrs, "_", raw[1..]);
      assert ([Strip(r)] + rest)[1..] == rest && [] + rest == rest;
    }
  }

  lemma {:induction false} FlattenDouble(ss: seq<string>)
    ensures Flatten(DoubleAll(ss)) == Double(Flatten(ss))
    decreases |ss|
  {
    if ss != [] {
      FlattenDouble(ss[1..]);
      DoubleConcat(ss[0], Flatten(ss[1..]));
      assert DoubleAll(ss)[1..] == DoubleAll(ss[1..]);
    }
  }

  // ---- the result ----

  /** What the guard of the theorem looks at: the text with its abbreviations marked. */
  function ProtectedToks(abbrs: Abbreviations, text: string): seq<Tok> {
    ProtectAll(abbrs, Chars(text), 0)
  }

  lemma PipelineDoubles(abbrs: Abbreviations, text: string)
    requires '_' !in text
    ensures Restored(abbrs, "__", SplitRaw([], ProtectFrom(abbrs, "__", text, 0)))
         == DoubleAll(Restored(abbrs, "_", EncAll(SplitToks([], ProtectedToks(abbrs, text)))))
  {
    SplitOfProtected(abbrs, text);
    DoubleRestored(abbrs, EncAll(SplitToks([], ProtectedToks(abbrs, text))));
  }

  lemma {:induction false} DoubleAllPieces(ss: seq<string>)
    ensures |DoubleAll(ss)| == |ss|
    ensures forall k | 0 <= k < |ss| :: DoubleAll(ss)[k] == Double(ss[k])
  {
    hide Double;
    if ss != [] { DoubleAllPieces(ss[1..]); }
  }

  /** The protected text is split as its tokens are. */
  lemma SplitOfProtected(abbrs: Abbreviations, text: string)
    requires '_' !in text
    ensures SplitRaw([], ProtectFrom(abbrs, "__", text, 0))
         == DoubleAll(EncAll(SplitToks([], ProtectedToks(abbrs, text))))
    ensures WellFormed(abbrs, ProtectedToks(abbrs, text)) && Plain(abbrs, ProtectedToks(abbrs, text)) == text
  {
    hide ProtectFrom, ProtectAll, SplitRaw, SplitToks, Plain;
    DoubleOfPlain(text);
    DoubleProtect(abbrs, text, 0);
    CharsStandForThemselves(abbrs, text);
    ProtectAllSteps(abbrs, Chars(text), 0);
    DoubleSplit([], ProtectFrom(abbrs, "_", text, 0));
    SplitEnc([], ProtectedToks(abbrs, text));
  }

  /** The piece ends with token n, a sentence mark that stands for itself in the text: it is
      none of the characters that a placeholder replaced. White space follows. */
  ghost predicate EndsInOwnMark(abbrs: Abbreviations, text: string, ts: seq<Tok>, piece: string, m: nat, n: nat) {
    && WellFormed(abbrs, ts) && m < n < |ts| && piece == Double(Enc(ts[m..n]))
    && ts[n - 1].Ch? && SentenceEnd(ts[n - 1].c) && ts[n].Ch? && IsSpace(ts[n].c)
    && text == Plain(abbrs, ts[..n - 1]) + [ts[n - 1].c] + Plain(abbrs, ts[n..])
  }

  /** No split falls right after a protected abbreviation: for text without underscores,
      every piece of the protected text but the last ends in a sentence mark of its own. */
  lemma NoSplitAfterAbbreviation(abbrs: Abbreviations, text: string, k: nat)
    requires '_' !in text && k < |SplitRaw([], ProtectFrom(abbrs, "__", text, 0))| - 1
    ensures exists m, n :: EndsInOwnMark(abbrs, text, ProtectedToks(abbrs, text),
                                         SplitRaw([], ProtectFrom(abbrs, "__", text, 0))[k], m, n)
  {
    hide ProtectFrom, ProtectedToks, SplitRaw, SplitToks, Enc, EncAll, DoubleAll, Double, Plain;
    var ts := ProtectedToks(abbrs, text);
    var pieces := SplitToks([], ts);
    SplitOfProtected(abbrs, text);
    EncAllPieces(pieces);
    DoubleAllPieces(EncAll(pieces));
    var m, n := PieceRun([], ts, k);
    assert [] + ts == ts;
    OwnMark(abbrs, ts, n);
    assert EndsInOwnMark(abbrs, text, ts, SplitRaw([], ProtectFrom(abbrs, "__", text, 0))[k], m, n);
  }

  lemma OwnMark(abbrs: Abbreviations, ts: seq<Tok>, n: nat)
    requires WellFormed(abbrs, ts) && 0 < n < |ts| && ts[n - 1].Ch?
    ensures Plain(abbrs, ts) == Plain(abbrs, ts[..n - 1]) + [ts[n - 1].c] + Plain(abbrs, ts[n..])
  {
    var before, mark, rest := ts[..n - 1], [ts[n - 1]], ts[n..];
    assert ts == before + (mark + rest);
    assert Plain(abbrs, mark) == [ts[n - 1].c] + Plain(abbrs, []) == [ts[n - 1].c];
    hide Plain;
    PlainConcat(abbrs, mark, rest);
    PlainConcat(abbrs, before, mark + rest);
    Assoc(Plain(abbrs, before), [ts[n - 1].c], Plain(abbrs, rest));
  }

  lemma {:induction false} EncAllPieces(pieces: seq<seq<Tok>>)
    ensures |EncAll(pieces)| == |pieces|
    ensures forall k | 0 <= k < |pieces| :: EncAll(pieces)[k] == Enc(pieces[k])
  {
    hide Enc;
    if pieces != [] { EncAllPieces(pieces[1..]); }
  }

  /** For text without underscores, splitting loses, adds and reorders no non-space
      character exactly when the marked text has no stray. */
  lemma SplittingKeepsText(abbrs: Abbreviations, text: string)
    requires '_' !in text
    ensures NonSpace(Flatten(SplitWith(abbrs, "__", text))) == NonSpace(text)
       <==> !AnyStray(abbrs, ProtectedToks(abbrs, text), 0)
  {
    hide SplitToks, EncAll, Restored, ProtectFrom, ProtectAll, AnyStray, AnyPieceStray, Plain, PlainAll;
    var ts := ProtectedToks(abbrs, text);
    var pieces := SplitToks([], ts);
    var short := Restored(abbrs, "_", EncAll(pieces));
    CharsStandForThemselves(abbrs, text);
    ProtectAllSteps(abbrs, Chars(text), 0);
    PiecesKeepText(abbrs, [], ts);
    assert [] + ts == ts;
    AnyPieceStrayIsAnyStray(abbrs, ts, 0);
    RestorePieces(abbrs, pieces);
    PipelineDoubles(abbrs, text);
    FlattenDouble(short);
    DoubleOfPlain(Flatten(short));
    NonSpaceMembers(text, '_');
    NonSpaceMembers(Flatten(short), '_');
    NonSpaceMembers(Double(Flatten(short)), '_');
    if short == [] {
      assert NonSpace(Flatten(short)) == [];
      assert Flatten([text]) == text + Flatten([]) == text;
    }
  }

  // ---- a guard that is easy to check, and a text that fails ----

  ghost predicate Occurs(pat: string, s: string) {
    exists k | 0 <= k <= |s| :: pat <= s[k..]
  }

  lemma {:induction false} FollowsIsRead(abbrs: Abbreviations, ts: seq<Tok>, w: string, m: nat)
    requires WellFormed(abbrs, ts) && Follows(ts, w, m)
    ensures w <= Plain(abbrs, ts)
    decreases |w|
  {
    if w != [] {
      FollowsIsRead(abbrs, ts[1..], w[1..], m);
      PrefixCons(w[0], w[1..], Plain(abbrs, ts[1..]));
      assert w == [w[0]] + w[1..];
    }
  }

  lemma {:induction false} StrayIsRead(abbrs: Abbreviations, ts: seq<Tok>, m: nat)
    requires WellFormed(abbrs, ts) && Stray(ts, m)
    ensures Occurs("ABBR", Plain(abbrs, ts))
    decreases |ts|
  {
    var s, rest := Plain(abbrs, ts), Plain(abbrs, ts[1..]);
    var head := if ts[0].Ch? then [ts[0].c] else abbrs[ts[0].i];
    assert ts[0] in ts && s == head + rest && s[|head|..] == rest;
    if ts[0].Ph? && ts[0].i > m && Follows(ts[1..], Core(m), m) {
      FollowsIsRead(abbrs, ts[1..], Core(m), m);
      assert "ABBR" <= rest by { assert "ABBR" == Core(m)[..4] == rest[..4]; }
    } else {
      StrayIsRead(abbrs, ts[1..], m);
      var k :| 0 <= k <= |rest| && "ABBR" <= rest[k..];
      assert s[|head| + k..] == rest[k..];
    }
  }

  lemma {:induction false} AnyStrayIsRead(abbrs: Abbreviations, ts: seq<Tok>, i: nat)
    requires i <= |abbrs| && WellFormed(abbrs, ts) && AnyStray(abbrs, ts, i)
    ensures Occurs("ABBR", Plain(abbrs, ts))
    decreases |abbrs| - i
  {
    if Stray(ts, i) { StrayIsRead(abbrs, ts, i); } else { AnyStrayIsRead(abbrs, ts, i + 1); }
  }

  /** A text without underscores and without the letters ABBR is split without loss. */
  lemma OrdinaryTextIsKept(abbrs: Abbreviations, text: string)
    requires '_' !in text && !Occurs("ABBR", text)
    ensures NonSpace(Flatten(SplitWith(abbrs, "__", text))) == NonSpace(text)
  {
    SplittingKeepsText(abbrs, text);
    CharsStandForThemselves(abbrs, text);
    ProtectAllSteps(abbrs, Chars(text), 0);
    if AnyStray(abbrs, ProtectedToks(abbrs, text), 0) {
      AnyStrayIsRead(abbrs, ProtectedToks(abbrs, text), 0);
    }
  }

  lemma {:induction false} NothingToProtect(abbrs: Abbreviations, ts: seq<Tok>, i: nat)
    requires i <= |abbrs| && Ch('.') !in ts
    ensures ProtectAll(abbrs, ts, i) == ts
    decreases |abbrs| - i
  {
    if i < |abbrs| {
      NothingMatches(abbrs[i], i, ts);
      NothingToProtect(abbrs, ts, i + 1);
    }
  }

  lemma {:induction false} NothingMatches(a: string, i: nat, ts: seq<Tok>)
    requires '.' in a && Ch('.') !in ts
    ensures ProtectToks(a, i, ts) == ts
    decreases |ts|
  {
    if ts != [] {
      var dot :| 0 <= dot < |a| && a[dot] == '.';
      assert Chars(a)[dot] == Ch('.');
      NothingMatches(a, i, ts[1..]);
    }
  }

  lemma {:induction false} ProtectSkips(a: string, i: nat, pre: seq<Tok>, rest: seq<Tok>)
    requires a != [] && Ch(a[0]) !in pre
    ensures ProtectToks(a, i, pre + rest) == pre + ProtectToks(a, i, rest)
    decreases |pre|
  {
    Uncons(pre, rest);
    if pre == [] {
      Uncons<Tok>([], ProtectToks(a, i, rest));
    } else {
      assert Chars(a)[0] == Ch(a[0]) && pre[0] in pre;
      ProtectSkips(a, i, pre[1..], rest);
      Assoc([pre[0]], pre[1..], ProtectToks(a, i, rest));
    }
  }

  const NO: seq<Tok> := [Ch('N'), Ch('o'), Ch('.')]
  const MIDDLE: seq<Tok> := [Ch('A'), Ch('B'), Ch('B'), Ch('R'), Ch('0')]
  const MARKED: seq<Tok> := [Ph(4)] + MIDDLE + [Ph(4)]

  lemma MarksBoth(no: string)
    requires no == ['N', 'o', '.']
    ensures ProtectToks(no, 4, NO + MIDDLE + NO) == MARKED
  {
    assert Chars(no) == NO;
    assert NO + MIDDLE + NO == NO + (MIDDLE + (NO + []));
    ProtectSkips(no, 4, MIDDLE, NO + []);
    assert [Ph(4)] + (MIDDLE + ([Ph(4)] + [])) == MARKED;
  }

  lemma OthersMarkNothing(a: string, i: nat)
    requires a != [] && (a[0] == 'e' || a[0] == 'i' || a[0] == 'v')
    ensures ProtectToks(a, i, NO + MIDDLE + NO) == NO + MIDDLE + NO
  {
    ProtectSkips(a, i, NO + MIDDLE + NO, []);
    assert NO + MIDDLE + NO + [] == NO + MIDDLE + NO;
  }

  lemma MarkedTextHasStray()
    ensures Stray(MARKED, 0)
  {
    var ts, w := MARKED, Core(0);
    assert Dec(0) == "0";
    assert w == "ABBR0";
    assert ts[1..][5..] == [Ph(4)] && w[5..] == [];
    FollowsUnrolled(ts[1..], w);
  }

  lemma FollowsUnrolled(ts: seq<Tok>, w: string)
    requires |w| == 5 && |ts| == 6 && ts[5] == Ph(4)
    requires forall k | 0 <= k < 5 :: ts[k] == Ch(w[k])
    ensures Follows(ts, w, 0)
  {
    assert Follows(ts[5..], w[5..], 0);
    assert ts[4..][1..] == ts[5..] && w[4..][1..] == w[5..];
    assert Follows(ts[4..], w[4..], 0);
    assert ts[3..][1..] == ts[4..] && w[3..][1..] == w[4..];
    assert Follows(ts[3..], w[3..], 0);
    assert ts[2..][1..] == ts[3..] && w[2..][1..] == w[3..];
    assert Follows(ts[2..], w[2..], 0);
    assert ts[1..][1..] == ts[2..] && w[1..][1..] == w[2..];
    assert Follows(ts[1..], w[1..], 0);
  }

  /** The splitter corrupts this text although it has no underscore. */
  lemma SomeTextIsCorrupted(text: string)
    requires text == "No.ABBR0No."
    ensures '_' !in text && NonSpace(Flatten(SplitSentences(text))) != NonSpace(text)
  {
    hide SplitWith, NonSpace, Flatten;
    AbbreviationsUsable();
    FirstAbbreviations();
    WitnessToks(text);
    CorruptedWith(ABBREVIATIONS, text);
  }

  lemma WitnessToks(text: string)
    requires text == ['N', 'o', '.', 'A', 'B', 'B', 'R', '0', 'N', 'o', '.']
    ensures '_' !in text && Chars(text) == NO + MIDDLE + NO
  {
    var ts := NO + MIDDLE + NO;
    assert |ts| == 11 && forall k | 0 <= k < 11 :: ts[k] == Ch(text[k]);
  }

  lemma FirstAbbreviations()
    requires Usable(ABBREVIATIONS)
    ensures MarksOnlyNo(ABBREVIATIONS)
  {}

  ghost predicate MarksOnlyNo(abbrs: Abbreviations) {
    && |abbrs| > 4 && abbrs[4] == ['N', 'o', '.']
    && forall i | 0 <= i < 4 :: var a := abbrs[i]; a != [] && (a[0] == 'e' || a[0] == 'i' || a[0] == 'v')
  }

  lemma {:induction false} MarkingIsDone(abbrs: Abbreviations, ts: seq<Tok>, i: nat)
    requires MarksOnlyNo(abbrs) && i <= 4 && ts == NO + MIDDLE + NO
    ensures ProtectAll(abbrs, ts, i) == MARKED
    decreases 4 - i
  {
    if i < 4 {
      OthersMarkNothing(abbrs[i], i);
      MarkingIsDone(abbrs, ts, i + 1);
    } else {
      MarksBoth(abbrs[4]);
      NothingToProtect(abbrs, MARKED, 5);
    }
  }

  lemma CorruptedWith(abbrs: Abbreviations, text: string)
    requires MarksOnlyNo(abbrs) && '_' !in text && Chars(text) == NO + MIDDLE + NO
    ensures NonSpace(Flatten(SplitWith(abbrs, "__", text))) != NonSpace(text)
  {
    var ts := ProtectedToks(abbrs, text);
    MarkingIsDone(abbrs, Chars(text), 0);
    assert AnyStray(abbrs, ts, 0) by { MarkedTextHasStray(); }
    SplittingKeepsText(abbrs, text);
  }
}
