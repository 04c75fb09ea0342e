// When does the sentence splitter lose or change text? Placeholders are analysed as tokens,
// with "_" standing for the source's "__"; the last section carries the result over.
module SentenceProofs {
  import opened Text
  import opened Decimal
  import opened Sentences

  /** Protected text as tokens: a character of the document, or a placeholder. */
  datatype Tok = Ch(c: char) | Ph(i: nat)

  ghost predicate WellFormed(abbrs: Abbreviations, ts: seq<Tok>) {
    forall t | t in ts :: if t.Ch? then t.c != '_' else t.i < |abbrs|
  }

  function TokText(t: Tok): string {
    if t.Ch? then [t.c] else Placeholder("_", t.i)
  }

  function Enc(ts: seq<Tok>): string {
    if ts == [] then [] else TokText(ts[0]) + Enc(ts[1..])
  }

  /** The text the tokens stand for. */
  function Plain(abbrs: Abbreviations, ts: seq<Tok>): string
    requires WellFormed(abbrs, ts)
  {
    if ts == [] then [] else (if ts[0].Ch? then [ts[0].c] else abbrs[ts[0].i]) + Plain(abbrs, ts[1..])
  }

  function Chars(s: string): (ts: seq<Tok>)
    ensures |ts| == |s| && forall k | 0 <= k < |s| :: ts[k] == Ch(s[k])
  {
    if s == [] then [] else [Ch(s[0])] + Chars(s[1..])
  }

  lemma {:induction false} EncConcat(a: seq<Tok>, b: seq<Tok>)
    ensures Enc(a + b) == Enc(a) + Enc(b)
    decreases |a|
  {
    hide TokText;
    Uncons(a, b);
    if a == [] {
      Uncons<char>([], Enc(b));
    } else {
      EncConcat(a[1..], b);
      Assoc(TokText(a[0]), Enc(a[1..]), Enc(b));
    }
  }

  lemma {:induction false} PlainConcat(abbrs: Abbreviations, a: seq<Tok>, b: seq<Tok>)
    requires WellFormed(abbrs, a) && WellFormed(abbrs, b)
    ensures WellFormed(abbrs, a + b) && Plain(abbrs, a + b) == Plain(abbrs, a) + Plain(abbrs, b)
    decreases |a|
  {
    Uncons(a, b);
    if a == [] {
      Uncons<char>([], Plain(abbrs, b));
    } else {
      PlainConcat(abbrs, a[1..], b);
      Assoc(if a[0].Ch? then [a[0].c] else abbrs[a[0].i], Plain(abbrs, a[1..]), Plain(abbrs, b));
    }
  }

  lemma {:induction false} CharsStandForThemselves(abbrs: Abbreviations, s: string)
    requires '_' !in s
    ensures WellFormed(abbrs, Chars(s)) && Enc(Chars(s)) == s && Plain(abbrs, Chars(s)) == s
    decreases |s|
  {
    if s != [] {
      CharsStandForThemselves(abbrs, s[1..]);
      assert Chars(s)[1..] == Chars(s[1..]);
      assert s[0] in s;
      assert forall t | t in Chars(s) :: t == Ch(s[0]) || t in Chars(s[1..]);
    }
  }

  lemma CoreShape(i: nat)
    ensures forall k | 0 <= k < |Core(i)| :: Core(i)[k] != '_' && Core(i)[k] != '.' && !IsSpace(Core(i)[k])
  {
    assert forall k | 0 <= k < |Dec(i)| :: Digit(Dec(i)[k]);
  }

  // ---- protecting is a rewriting of tokens that keeps their plain text ----

  function ProtectToks(a: string, i: nat, ts: seq<Tok>): seq<Tok>
    requires a != []
    decreases |ts|
  {
    if ts == [] then []
    else if Chars(a) <= ts then [Ph(i)] + ProtectToks(a, i, ts[|a|..])
    else [ts[0]] + ProtectToks(a, i, ts[1..])
  }

  function ProtectAll(abbrs: Abbreviations, ts: seq<Tok>, i: nat): seq<Tok>
    requires i <= |abbrs|
    decreases |abbrs| - i
  {
    if i == |abbrs| then ts else ProtectAll(abbrs, ProtectToks(abbrs[i], i, ts), i + 1)
  }

  lemma {:induction false} CharsPrefix(abbrs: Abbreviations, a: string, ts: seq<Tok>)
    requires '_' !in a && WellFormed(abbrs, ts)
    ensures a <= Enc(ts) <==> Chars(a) <= ts
    decreases |a|
  {
    if a != [] && ts != [] {
      assert a[0] in a;
      if ts[0] == Ch(a[0]) {
        CharsPrefix(abbrs, a[1..], ts[1..]);
        assert a == [a[0]] + a[1..] && Enc(ts) == [a[0]] + Enc(ts[1..]);
        assert a <= Enc(ts) <==> a[1..] <= Enc(ts[1..]) by { PrefixCons(a[0], a[1..], Enc(ts[1..])); }
        assert Chars(a) == [Ch(a[0])] + Chars(a[1..]) && ts == [Ch(a[0])] + ts[1..];
        assert Chars(a) <= ts <==> Chars(a[1..]) <= ts[1..] by { PrefixCons(Ch(a[0]), Chars(a[1..]), ts[1..]); }
      } else {
        assert Enc(ts)[0] != a[0];
      }
    }
  }

  lemma PrefixCons<T>(x: T, p: seq<T>, s: seq<T>)
    ensures [x] + p <= [x] + s <==> p <= s
  {
    if p <= s { assert s == p + s[|p|..]; assert [x] + s == ([x] + p) + s[|p|..]; }
    if [x] + p <= [x] + s { assert forall k | 0 <= k < |p| :: p[k] == ([x] + p)[k + 1] == ([x] + s)[k + 1] == s[k]; }
  }

  /** An abbreviation, having a full stop and no underscore, cannot start inside x_. */
  lemma NotInsidePlaceholder(a: string, x: string, y: string, k: nat)
    requires '.' in a && '_' !in a
    requires x != [] && x[|x| - 1] == '_' && '.' !in x && k < |x|
    ensures !(a <= (x + y)[k..])
  {
    var t := (x + y)[k..];
    assert t[|x| - 1 - k] == '_' && forall m | 0 <= m < |x| - k :: t[m] == x[k + m];
    var p :| 0 <= p < |a| && a[p] == '.';
  }

  /** A placeholder is copied whole when an abbreviation is replaced. */
  lemma ReplaceOverPlaceholder(j: nat, y: string, a: string, p: string)
    requires '.' in a && '_' !in a
    ensures Replace(Placeholder("_", j) + y, a, p) == Placeholder("_", j) + Replace(y, a, p)
  {
    hide Replace;
    var x := Placeholder("_", j);
    CoreShape(j);
    forall k | 0 <= k < |x| ensures !(a <= (x + y)[k..]) {
      NotInsidePlaceholder(a, x, y, k);
    }
    ReplaceSkips(x, y, a, p);
  }

  lemma {:induction false} ProtectStep(abbrs: Abbreviations, i: nat, ts: seq<Tok>)
    requires i < |abbrs| && WellFormed(abbrs, ts)
    ensures WellFormed(abbrs, ProtectToks(abbrs[i], i, ts))
    ensures Enc(ProtectToks(abbrs[i], i, ts)) == Replace(Enc(ts), abbrs[i], Placeholder("_", i))
    ensures Plain(abbrs, ProtectToks(abbrs[i], i, ts)) == Plain(abbrs, ts)
    decreases |ts|
  {
    hide Placeholder, Replace;
    var a, p := abbrs[i], Placeholder("_", i);
    if ts == [] {
      ReplaceNothing(a, p);
    } else if Chars(a) <= ts {
      var rest := ts[|a|..];
      assert ts == Chars(a) + rest;
      ProtectStep(abbrs, i, rest);
      CharsStandForThemselves(abbrs, a);
      EncConcat(Chars(a), rest);
      PlainConcat(abbrs, Chars(a), rest);
      ReplaceHit(a, Enc(rest), p);
    } else {
      ProtectStep(abbrs, i, ts[1..]);
      CharsPrefix(abbrs, a, ts);
      if ts[0].Ph? {
        ReplaceOverPlaceholder(ts[0].i, Enc(ts[1..]), a, p);
      } else {
        ReplaceMiss(ts[0].c, Enc(ts[1..]), a, p);
      }
    }
  }

  lemma ReplaceNothing(a: string, p: string)
    requires a != []
    ensures Replace([], a, p) == []
  {}

  lemma {:induction false} ProtectAllSteps(abbrs: Abbreviations, ts: seq<Tok>, i: nat)
    requires i <= |abbrs| && WellFormed(abbrs, ts)
    ensures WellFormed(abbrs, ProtectAll(abbrs, ts, i))
    ensures Enc(ProtectAll(abbrs, ts, i)) == ProtectFrom(abbrs, "_", Enc(ts), i)
    ensures Plain(abbrs, ProtectAll(abbrs, ts, i)) == Plain(abbrs, ts)
    decreases |abbrs| - i
  {
    if i < |abbrs| {
      ProtectStep(abbrs, i, ts);
      ProtectAllSteps(abbrs, ProtectToks(abbrs[i], i, ts), i + 1);
    }
  }

  // ---- restoring: where the source goes wrong ----

  /** ts starts with the characters w and then a placeholder numbered m or higher. */
  predicate Follows(ts: seq<Tok>, w: string, m: nat)
    decreases |w|
  {
    if w == [] then ts != [] && ts[0].Ph? && ts[0].i >= m
    else ts != [] && ts[0] == Ch(w[0]) && Follows(ts[1..], w[1..], m)
  }

  /** A placeholder numbered above m, then the letters ABBRm, then a placeholder numbered m
      or higher: the underscores around the letters read as placeholder m when restoring
      reaches m. */
  predicate Stray(ts: seq<Tok>, m: nat) {
    ts != [] && ((ts[0].Ph? && ts[0].i > m && Follows(ts[1..], Core(m), m)) || Stray(ts[1..], m))
  }

  ghost predicate AtLeast(ts: seq<Tok>, m: nat) {
    forall t | t in ts && t.Ph? :: t.i >= m
  }

  function RestoreToks(a: string, i: nat, ts: seq<Tok>): seq<Tok> {
    if ts == [] then [] else (if ts[0] == Ph(i) then Chars(a) else [ts[0]]) + RestoreToks(a, i, ts[1..])
  }

  lemma {:induction false} FollowsReads(abbrs: Abbreviations, ts: seq<Tok>, w: string, m: nat)
    requires '_' !in w && WellFormed(abbrs, ts) && AtLeast(ts, m)
    ensures Follows(ts, w, m) <==> w + "_" <= Enc(ts)
    decreases |w|
  {
    if w == [] {
      assert w + "_" == "_";
      assert ts != [] ==> ts[0] in ts && Enc(ts)[0] == TokText(ts[0])[0];
    } else if ts != [] {
      assert w[0] in w && w + "_" == [w[0]] + (w[1..] + "_");
      if ts[0] == Ch(w[0]) {
        FollowsReads(abbrs, ts[1..], w[1..], m);
        PrefixCons(w[0], w[1..] + "_", Enc(ts[1..]));
        assert Enc(ts) == [w[0]] + Enc(ts[1..]);
      } else {
        assert Enc(ts)[0] == TokText(ts[0])[0] != w[0];
      }
    }
  }

  /** Two placeholders that agree as far as the shorter one goes are the same. */
  lemma PlaceholdersDiffer(i: nat, j: nat, z: string)
    requires Placeholder("_", i) <= Placeholder("_", j) + z
    ensures i == j
  {
    var a, b, t := Core(i), Core(j), Placeholder("_", j) + z;
    CoreShape(i);
    CoreShape(j);
    assert forall k | 0 <= k < |b| :: t[k + 1] == b[k];
    assert t[|b| + 1] == '_' && Placeholder("_", i)[|a| + 1] == '_';
    assert forall k | 0 <= k < |a| :: t[k + 1] == Placeholder("_", i)[k + 1] == a[k];
    assert |a| == |b|;
    assert a == b;
    assert Dec(i) == a[4..] == b[4..] == Dec(j);
    DecInjective(i, j);
  }

  /** Scanning another placeholder: only its closing underscore can start a match. */
  lemma ReplaceOverOther(j: nat, i: nat, rest: string, rep: string)
    requires i != j
    ensures Replace(Placeholder("_", j) + rest, Placeholder("_", i), rep)
         == "_" + Core(j) + Replace("_" + rest, Placeholder("_", i), rep)
  {
    var x, y, p := "_" + Core(j), "_" + rest, Placeholder("_", i);
    assert Placeholder("_", j) + rest == x + y;
    CoreShape(j);
    forall k | 0 <= k < |x| ensures !(p <= (x + y)[k..]) {
      if k == 0 {
        if p <= Placeholder("_", j) + rest { PlaceholdersDiffer(i, j, rest); }
        assert (x + y)[0..] == x + y;
      } else {
        assert (x + y)[k..][0] == Core(j)[k - 1] != '_';
      }
    }
    ReplaceSkips(x, y, p, rep);
  }

  lemma ReplaceAtUnderscore(i: nat, rest: string, rep: string)
    ensures Core(i) + "_" <= rest
        ==> Replace("_" + rest, Placeholder("_", i), rep)
            == rep + Replace(rest[|Core(i)| + 1..], Placeholder("_", i), rep)
    ensures !(Core(i) + "_" <= rest) ==>
              Replace("_" + rest, Placeholder("_", i), rep) == "_" + Replace(rest, Placeholder("_", i), rep)
  {
    var p := Placeholder("_", i);
    assert p == ['_'] + (Core(i) + "_");
    PrefixCons('_', Core(i) + "_", rest);
    if Core(i) + "_" <= rest {
      assert "_" + rest == p + rest[|p| - 1..];
      ReplaceHit(p, rest[|p| - 1..], rep);
    }
  }

  lemma ReplaceOtherWhole(j: nat, i: nat, rest: string, rep: string)
    requires i != j && !(Core(i) + "_" <= rest)
    ensures Replace(Placeholder("_", j) + rest, Placeholder("_", i), rep)
         == Placeholder("_", j) + Replace(rest, Placeholder("_", i), rep)
  {
    ReplaceOverOther(j, i, rest, rep);
    ReplaceAtUnderscore(i, rest, rep);
    Assoc("_" + Core(j), "_", Replace(rest, Placeholder("_", i), rep));
  }

  lemma ReplaceOverChar(c: char, i: nat, rest: string, rep: string)
    requires c != '_'
    ensures Replace([c] + rest, Placeholder("_", i), rep) == [c] + Replace(rest, Placeholder("_", i), rep)
  {
    assert ([c] + rest)[1..] == rest && ([c] + rest)[0] != Placeholder("_", i)[0];
  }

  /** Without a stray, one restore step turns exactly the placeholders i back. */
  lemma {:induction false} RestoreStep(abbrs: Abbreviations, i: nat, ts: seq<Tok>)
    requires i < |abbrs| && WellFormed(abbrs, ts) && AtLeast(ts, i) && !Stray(ts, i)
    ensures Replace(Enc(ts), Placeholder("_", i), abbrs[i]) == Enc(RestoreToks(abbrs[i], i, ts))
    decreases |ts|
  {
    var p, a := Placeholder("_", i), abbrs[i];
    if ts != [] {
      var rest := ts[1..];
      RestoreStep(abbrs, i, rest);
      if ts[0].Ch? {
        assert ts[0] in ts;
        ReplaceOverChar(ts[0].c, i, Enc(rest), a);
      } else if ts[0].i == i {
        ReplaceHit(p, Enc(rest), a);
        CharsStandForThemselves(abbrs, a);
        EncConcat(Chars(a), RestoreToks(a, i, rest));
      } else {
        CoreShape(i);
        FollowsReads(abbrs, rest, Core(i), i);
        assert ts[0] in ts;
        ReplaceOtherWhole(ts[0].i, i, Enc(rest), a);
      }
    }
  }

  lemma {:induction false} RestoreToksShape(abbrs: Abbreviations, i: nat, ts: seq<Tok>)
    requires i < |abbrs| && WellFormed(abbrs, ts) && AtLeast(ts, i)
    ensures WellFormed(abbrs, RestoreToks(abbrs[i], i, ts)) && AtLeast(RestoreToks(abbrs[i], i, ts), i + 1)
    ensures Plain(abbrs, RestoreToks(abbrs[i], i, ts)) == Plain(abbrs, ts)
    decreases |ts|
  {
    if ts != [] {
      assert ts[0] in ts;
      RestoreToksShape(abbrs, i, ts[1..]);
      CharsStandForThemselves(abbrs, abbrs[i]);
      var head := if ts[0] == Ph(i) then Chars(abbrs[i]) else [ts[0]];
      PlainConcat(abbrs, head, RestoreToks(abbrs[i], i, ts[1..]));
      assert Plain(abbrs, [ts[0]]) == (if ts[0].Ch? then [ts[0].c] else abbrs[ts[0].i]) + Plain(abbrs, []);
    }
  }

  /** Letters with a full stop among them break a would-be stray. */
  lemma {:induction false} FollowsBlocked(a: string, ts: seq<Tok>, w: string, m: nat)
    requires '.' in a && '.' !in w
    ensures !Follows(Chars(a) + ts, w, m)
    decreases |w|
  {
    assert (Chars(a) + ts)[0] == Ch(a[0]);
    if w != [] && a[0] == w[0] {
      assert a[0] != '.' by { assert w[0] in w; }
      assert a == [a[0]] + a[1..];
      assert (Chars(a) + ts)[1..] == Chars(a[1..]) + ts;
      FollowsBlocked(a[1..], ts, w[1..], m);
    }
  }

  lemma {:induction false} RestoreKeepsFollows(abbrs: Abbreviations, i: nat, m: nat, ts: seq<Tok>, w: string)
    requires i < m && i < |abbrs| && '.' !in w
    ensures Follows(RestoreToks(abbrs[i], i, ts), w, m) == Follows(ts, w, m)
    decreases |w|
  {
    if ts != [] {
      var rest := RestoreToks(abbrs[i], i, ts[1..]);
      if ts[0] == Ph(i) {
        FollowsBlocked(abbrs[i], rest, w, m);
      } else {
        assert ([ts[0]] + rest)[1..] == rest;
        if w != [] { RestoreKeepsFollows(abbrs, i, m, ts[1..], w[1..]); }
      }
    }
  }

  lemma {:induction false} StraySkipsChars(a: string, ts: seq<Tok>, m: nat)
    ensures Stray(Chars(a) + ts, m) == Stray(ts, m)
    decreases |a|
  {
    if a == [] {
      assert Chars(a) + ts == ts;
    } else {
      assert (Chars(a) + ts)[1..] == Chars(a[1..]) + ts;
      StraySkipsChars(a[1..], ts, m);
    }
  }

  lemma {:induction false} RestoreKeepsStray(abbrs: Abbreviations, i: nat, m: nat, ts: seq<Tok>)
    requires i < m && i < |abbrs|
    ensures Stray(RestoreToks(abbrs[i], i, ts), m) == Stray(ts, m)
    decreases |ts|
  {
    if ts != [] {
      var rest := RestoreToks(abbrs[i], i, ts[1..]);
      RestoreKeepsStray(abbrs, i, m, ts[1..]);
      if ts[0] == Ph(i) {
        StraySkipsChars(abbrs[i], rest, m);
      } else {
        assert ([ts[0]] + rest)[1..] == rest;
        CoreShape(m);
        RestoreKeepsFollows(abbrs, i, m, ts[1..], Core(m));
      }
    }
  }

  // ---- a stray leaves an underscore behind for good ----

  /** s has an opening underscore whose text, up to the next underscore or the end, has a
      full stop in it: no later step can consume it. */
  ghost predicate StuckAs(abbrs: Abbreviations, s: string, pre: seq<Tok>, w: string, r: string) {
    WellFormed(abbrs, pre) && '_' !in w && '.' in w && s == Enc(pre) + ("_" + (w + r))
  }

  lemma NoMatchOnStuck(i: nat, w: string, r: string, rep: string)
    requires '_' !in w && '.' in w
    ensures Replace("_" + (w + r), Placeholder("_", i), rep) == "_" + (w + Replace(r, Placeholder("_", i), rep))
  {
    var p, c := Placeholder("_", i), Core(i) + "_";
    CoreShape(i);
    var dot :| 0 <= dot < |w| && w[dot] == '.';
    assert !(c <= w + r) by {
      assert (w + r)[dot] == '.' && c[|Core(i)|] == '_';
      assert |Core(i)| < |w| ==> (w + r)[|Core(i)|] == w[|Core(i)|] && w[|Core(i)|] in w;
    }
    ReplaceAtUnderscore(i, w + r, rep);
    forall k | 0 <= k < |w| ensures !(p <= (w + r)[k..]) {
      assert (w + r)[k..][0] == w[k] && w[k] in w;
    }
    ReplaceSkips(w, r, p, rep);
  }

  lemma StuckCons(abbrs: Abbreviations, head: seq<Tok>, s: string, pre: seq<Tok>, w: string, r: string)
    requires WellFormed(abbrs, head) && StuckAs(abbrs, s, pre, w, r)
    ensures StuckAs(abbrs, Enc(head) + s, head + pre, w, r)
  {
    EncConcat(head, pre);
    Assoc(Enc(head), Enc(pre), "_" + (w + r));
  }

  /** A stray hit leaves the opening underscore of the other placeholder stuck. */
  lemma StrayHit(abbrs: Abbreviations, i: nat, j: nat, rest: string)
      returns (w: string, r: string)
    requires i < |abbrs| && j != i && Core(i) + "_" <= rest
    ensures StuckAs(abbrs, Replace(Placeholder("_", j) + rest, Placeholder("_", i), abbrs[i]), [], w, r)
  {
    var p, a := Placeholder("_", i), abbrs[i];
    r := Replace(rest[|Core(i)| + 1..], p, a);
    w := Core(j) + a;
    CoreShape(j);
    ReplaceOverOther(j, i, rest, a);
    ReplaceAtUnderscore(i, rest, a);
    Assoc(Core(j), a, r);
    Assoc("_", Core(j), a + r);
    assert "_" + Core(j) + (a + r) == "_" + (w + r);
    assert Enc([]) + ("_" + (w + r)) == "_" + (w + r);
  }

  lemma PlaceholderNotEmpty(i: nat)
    ensures Placeholder("_", i) != []
  {}

  lemma {:induction false} StuckStep(abbrs: Abbreviations, i: nat, s: string, pre: seq<Tok>, w: string, r: string)
      returns (pre': seq<Tok>, w': string, r': string)
    requires i < |abbrs| && StuckAs(abbrs, s, pre, w, r)
    ensures StuckAs(abbrs, Replace(s, Placeholder("_", i), abbrs[i]), pre', w', r')
    decreases |pre|
  {
    hide Replace, Placeholder, Core;
    var p, a := Placeholder("_", i), abbrs[i];
    PlaceholderNotEmpty(i);
    if pre == [] {
      NoMatchOnStuck(i, w, r, a);
      assert s == "_" + (w + r);
      pre', w', r' := [], w, Replace(r, p, a);
      assert Enc([]) + ("_" + (w' + r')) == "_" + (w' + r');
    } else {
      var rest := Enc(pre[1..]) + ("_" + (w + r));
      assert pre[0] in pre && pre == [pre[0]] + pre[1..];
      Assoc(TokText(pre[0]), Enc(pre[1..]), "_" + (w + r));
      assert s == TokText(pre[0]) + rest;
      pre', w', r' := StuckStep(abbrs, i, rest, pre[1..], w, r);
      if pre[0].Ch? {
        ReplaceOverChar(pre[0].c, i, rest, a);
        StuckKept(abbrs, pre[0], Replace(rest, p, a), pre', w', r');
        pre' := [pre[0]] + pre';
      } else if pre[0].i == i {
        ReplaceHit(p, rest, a);
        CharsStandForThemselves(abbrs, a);
        StuckCons(abbrs, Chars(a), Replace(rest, p, a), pre', w', r');
        pre' := Chars(a) + pre';
      } else if Core(i) + "_" <= rest {
        w', r' := StrayHit(abbrs, i, pre[0].i, rest);
        pre' := [];
      } else {
        ReplaceOtherWhole(pre[0].i, i, rest, a);
        StuckKept(abbrs, pre[0], Replace(rest, p, a), pre', w', r');
        pre' := [pre[0]] + pre';
      }
    }
  }

  lemma StuckKept(abbrs: Abbreviations, t: Tok, s: string, pre: seq<Tok>, w: string, r: string)
    requires WellFormed(abbrs, [t]) && StuckAs(abbrs, s, pre, w, r)
    ensures StuckAs(abbrs, TokText(t) + s, [t] + pre, w, r)
  {
    assert Enc([t]) == TokText(t) + Enc([]) == TokText(t);
    StuckCons(abbrs, [t], s, pre, w, r);
  }

  lemma {:induction false} FirstStray(abbrs: Abbreviations, i: nat, ts: seq<Tok>)
      returns (pre: seq<Tok>, w: string, r: string)
    requires i < |abbrs| && WellFormed(abbrs, ts) && AtLeast(ts, i) && Stray(ts, i)
    ensures StuckAs(abbrs, Replace(Enc(ts), Placeholder("_", i), abbrs[i]), pre, w, r)
    decreases |ts|
  {
    var p, a, rest := Placeholder("_", i), abbrs[i], Enc(ts[1..]);
    assert ts[0] in ts && ts == [ts[0]] + ts[1..];
    CoreShape(i);
    FollowsReads(abbrs, ts[1..], Core(i), i);
    if ts[0].Ph? && ts[0].i > i && Follows(ts[1..], Core(i), i) {
      w, r := StrayHit(abbrs, i, ts[0].i, rest);
      pre := [];
    } else {
      pre, w, r := FirstStray(abbrs, i, ts[1..]);
      if ts[0].Ch? {
        ReplaceOverChar(ts[0].c, i, rest, a);
        StuckKept(abbrs, ts[0], Replace(rest, p, a), pre, w, r);
        pre := [ts[0]] + pre;
      } else if ts[0].i == i {
        ReplaceHit(p, rest, a);
        CharsStandForThemselves(abbrs, a);
        StuckCons(abbrs, Chars(a), Replace(rest, p, a), pre, w, r);
        pre := Chars(a) + pre;
      } else {
        ReplaceOtherWhole(ts[0].i, i, rest, a);
        StuckKept(abbrs, ts[0], Replace(rest, p, a), pre, w, r);
        pre := [ts[0]] + pre;
      }
    }
  }

  lemma {:induction false} StuckForGood(abbrs: Abbreviations, i: nat, s: string, pre: seq<Tok>, w: string, r: string)
    requires i <= |abbrs| && StuckAs(abbrs, s, pre, w, r)
    ensures '_' in RestoreFrom(abbrs, "_", s, i)
    decreases |abbrs| - i
  {
    if i == |abbrs| {
      assert s[|Enc(pre)|] == '_';
    } else {
      var pre', w', r' := StuckStep(abbrs, i, s, pre, w, r);
      StuckForGood(abbrs, i + 1, Replace(s, Placeholder("_", i), abbrs[i]), pre', w', r');
    }
  }

  // ---- one piece: restored exactly when it has no stray ----

  predicate AnyStray(abbrs: Abbreviations, ts: seq<Tok>, i: nat)
    requires i <= |abbrs|
    decreases |abbrs| - i
  {
    i < |abbrs| && (Stray(ts, i) || AnyStray(abbrs, ts, i + 1))
  }

  lemma {:induction false} RestoreKeepsAnyStray(abbrs: Abbreviations, i: nat, m: nat, ts: seq<Tok>)
    requires i < m <= |abbrs|
    ensures AnyStray(abbrs, RestoreToks(abbrs[i], i, ts), m) == AnyStray(abbrs, ts, m)
    decreases |abbrs| - m
  {
    if m < |abbrs| {
      RestoreKeepsStray(abbrs, i, m, ts);
      RestoreKeepsAnyStray(abbrs, i, m + 1, ts);
    }
  }

  lemma {:induction false} NoPlaceholderLeft(abbrs: Abbreviations, ts: seq<Tok>)
    requires WellFormed(abbrs, ts) && AtLeast(ts, |abbrs|)
    ensures Enc(ts) == Plain(abbrs, ts)
    decreases |ts|
  {
    if ts != [] {
      assert ts[0] in ts;
      NoPlaceholderLeft(abbrs, ts[1..]);
    }
  }

  lemma {:induction false} RestoreExactly(abbrs: Abbreviations, ts: seq<Tok>, i: nat)
    requires i <= |abbrs| && WellFormed(abbrs, ts) && AtLeast(ts, i)
    ensures if AnyStray(abbrs, ts, i) then '_' in RestoreFrom(abbrs, "_", Enc(ts), i)
            else RestoreFrom(abbrs, "_", Enc(ts), i) == Plain(abbrs, ts)
    decreases |abbrs| - i
  {
    if i == |abbrs| {
      NoPlaceholderLeft(abbrs, ts);
    } else if Stray(ts, i) {
      var pre, w, r := FirstStray(abbrs, i, ts);
      StuckForGood(abbrs, i + 1, Replace(Enc(ts), Placeholder("_", i), abbrs[i]), pre, w, r);
    } else {
      RestoreStep(abbrs, i, ts);
      RestoreToksShape(abbrs, i, ts);
      RestoreKeepsAnyStray(abbrs, i, i + 1, ts);
      RestoreExactly(abbrs, RestoreToks(abbrs[i], i, ts), i + 1);
    }
  }
}
