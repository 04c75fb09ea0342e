// What _normalise_whitespace of retrieval/chunker.py does to any text.
module Whitespace {
  import opened Text
  import opened Chunker

  predicate Newlines(t: string) { forall k | 0 <= k < |t| :: t[k] == '\n' }
  predicate Blanks(t: string) { forall k | 0 <= k < |t| :: LineBlank(t[k]) }

  predicate TripleAt(t: string, k: nat) {
    k + 2 < |t| && t[k] == '\n' && t[k + 1] == '\n' && t[k + 2] == '\n'
  }

  predicate TwoBlanksAt(t: string, k: nat) { k + 1 < |t| && LineBlank(t[k]) && LineBlank(t[k + 1]) }

  /** No carriage return, no three newlines in a row, no two blanks in a row. */
  ghost predicate Tidy(t: string) {
    '\r' !in t && (forall k: nat :: !TripleAt(t, k)) && (forall k: nat :: !TwoBlanksAt(t, k))
  }

  // ---- strip ----

  lemma StripKeepsTidy(s: string)
    requires Tidy(s)
    ensures Tidy(Strip(s))
  {
    hide Strip;
    var before, after := StripShape(s);
    var n, t := |before|, Strip(s);
    assert forall k | 0 <= k < |t| :: t[k] == s[n + k];
    forall k: nat ensures !TripleAt(t, k) && !TwoBlanksAt(t, k) {
      assert !TripleAt(s, n + k) && !TwoBlanksAt(s, n + k);
    }
  }

  // ---- line ends ----

  lemma ReplaceNone(t: string, pat: string, rep: string)
    requires pat != [] && pat[0] == '\r' && '\r' !in t
    ensures Replace(t, pat, rep) == t
  {
    hide Replace;
    NoHead(t, [], pat);
    ReplaceSkips(t, [], pat, rep);
    ReplaceEmpty(pat, rep);
    assert t + [] == t;
  }

  lemma NoHead(x: string, y: string, pat: string)
    requires pat != [] && pat[0] == '\r' && '\r' !in x
    ensures forall k | 0 <= k < |x| :: !(pat <= (x + y)[k..])
  {
    forall k | 0 <= k < |x| ensures !(pat <= (x + y)[k..]) {
      assert (x + y)[k..][0] == x[k];
    }
  }

  lemma ReplaceEmpty(pat: string, rep: string)
    requires pat != []
    ensures Replace([], pat, rep) == []
  {}

  /** Both replacements: every line end becomes a newline. */
  function LineEnds(text: string): string { Replace(Replace(text, "\r\n", "\n"), "\r", "\n") }

  lemma SkipText(a: string, y: string, crlf: string, cr: string, nl: string)
    requires crlf == ['\r', '\n'] && cr == ['\r'] && '\r' !in a
    ensures Replace(Replace(a + y, crlf, nl), cr, nl) == a + Replace(Replace(y, crlf, nl), cr, nl)
  {
    hide Replace;
    NoHead(a, y, crlf);
    ReplaceSkips(a, y, crlf, nl);
    NoHead(a, Replace(y, crlf, nl), cr);
    ReplaceSkips(a, Replace(y, crlf, nl), cr, nl);
  }

  lemma CrLf(b: string, crlf: string, cr: string, nl: string)
    requires crlf == ['\r', '\n'] && cr == ['\r'] && nl == ['\n']
    ensures Replace(Replace(crlf + b, crlf, nl), cr, nl) == nl + Replace(Replace(b, crlf, nl), cr, nl)
  {
    hide Replace;
    ReplaceHit(crlf, b, nl);
    assert (['\n'] + Replace(b, crlf, nl))[0] == '\n';
    ReplaceMiss('\n', Replace(b, crlf, nl), cr, nl);
  }

  lemma LoneCr(b: string, crlf: string, cr: string, nl: string)
    requires crlf == ['\r', '\n'] && cr == ['\r'] && nl == ['\n'] && (b == [] || b[0] != '\n')
    ensures Replace(Replace(cr + b, crlf, nl), cr, nl) == nl + Replace(Replace(b, crlf, nl), cr, nl)
  {
    hide Replace;
    assert b != [] ==> (['\r'] + b)[1] == b[0];
    ReplaceMiss('\r', b, crlf, nl);
    ReplaceHit(cr, Replace(b, crlf, nl), nl);
  }

  lemma LineEndsStep(a: string, b: string)
    requires '\r' !in a
    ensures LineEnds(a + "\r\n" + b) == LineEnds(a + "\n" + b)
    ensures b == [] || b[0] != '\n' ==> LineEnds(a + "\r" + b) == LineEnds(a + "\n" + b)
  {
    hide Replace;
    var crlf, cr, nl := "\r\n", "\r", "\n";
    Assoc(a, crlf, b);
    Assoc(a, cr, b);
    Assoc(a, nl, b);
    SkipText(a, crlf + b, crlf, cr, nl);
    SkipText(a, cr + b, crlf, cr, nl);
    SkipText(a, nl + b, crlf, cr, nl);
    SkipText(nl, b, crlf, cr, nl);
    CrLf(b, crlf, cr, nl);
    if b == [] || b[0] != '\n' { LoneCr(b, crlf, cr, nl); }
  }

  lemma LineEndsNone(t: string)
    requires '\r' !in t
    ensures LineEnds(t) == t
  {
    hide Replace;
    ReplaceNone(t, "\r\n", "\n");
    ReplaceNone(t, "\r", "\n");
  }

  lemma {:induction false} ReplacedNonSpace(s: string, pat: string, rep: string)
    requires pat != [] && NonSpace(pat) == [] && NonSpace(rep) == []
    ensures NonSpace(Replace(s, pat, rep)) == NonSpace(s)
    decreases |s|
  {
    hide NonSpace;
    if s == [] {
    } else if pat <= s {
      ReplacedNonSpace(s[|pat|..], pat, rep);
      NonSpaceConcat(rep, Replace(s[|pat|..], pat, rep));
      NonSpaceConcat(pat, s[|pat|..]);
      assert s == pat + s[|pat|..];
    } else {
      ReplacedNonSpace(s[1..], pat, rep);
      NonSpaceConcat([s[0]], Replace(s[1..], pat, rep));
      NonSpaceConcat([s[0]], s[1..]);
      assert s == [s[0]] + s[1..];
    }
  }

  lemma {:induction false} ReplacedAway(s: string, pat: string, rep: string)
    requires pat == ['\r'] && '\r' !in rep
    ensures '\r' !in Replace(s, pat, rep)
    decreases |s|
  {
    if s != [] {
      ReplacedAway(s[1..], pat, rep);
      assert pat <= s <==> s[0] == '\r';
    }
  }

  lemma SpacesHaveNoText(t: string)
    requires AllSpace(t)
    ensures NonSpace(t) == []
  {
    if t != [] { assert t == [t[0]] + t[1..]; SpacesHaveNoText(t[1..]); }
  }

  // ---- newline runs ----

  lemma {:induction false} RunOfNewlines(a: string, b: string)
    requires Newlines(a)
    ensures NewlineRun(a + b) == |a| + NewlineRun(b) && (a + b)[|a|..] == b
  {
    Uncons(a, b);
    if a != [] { RunOfNewlines(a[1..], b); }
  }

  lemma {:induction false} RunShape(t: string)
    ensures Newlines(t[..NewlineRun(t)]) && (NewlineRun(t) < |t| ==> t[NewlineRun(t)] != '\n')
  {
    if t != [] && t[0] == '\n' {
      RunShape(t[1..]);
      assert t[..NewlineRun(t)] == [t[0]] + t[1..][..NewlineRun(t[1..])];
    }
  }

  /** A run of newlines that ends within a is not prolonged by what follows. */
  lemma {:induction false} RunWithin(a: string, y: string)
    requires !Newlines(a)
    ensures NewlineRun(a + y) == NewlineRun(a) < |a|
  {
    Uncons(a, y);
    if a[0] == '\n' {
      assert a == [a[0]] + a[1..];
      RunWithin(a[1..], y);
    }
  }

  lemma NewlinesCommute(a: string, n: string)
    requires Newlines(a) && Newlines(n)
    ensures a + n == n + a
  {}

  lemma CollapseStep(t: string)
    requires t != []
    ensures CollapseNewlines(t) == if NewlineRun(t) >= 3 then "\n\n" + CollapseNewlines(t[NewlineRun(t)..])
                                   else [t[0]] + CollapseNewlines(t[1..])
  {}

  lemma ThreeFirst(b: string, three: string, two: string)
    requires three == ['\n', '\n', '\n'] && two == ['\n', '\n']
    ensures CollapseNewlines(three + b) == CollapseNewlines(two + b)
  {
    hide CollapseNewlines, NewlineRun;
    var one := ['\n'];
    RunOfNewlines(three, b);
    RunOfNewlines(two, b);
    RunOfNewlines(one, b);
    CollapseStep(three + b);
    CollapseStep(two + b);
    CollapseStep(one + b);
    var r := NewlineRun(b);
    assert (three + b)[3 + r..] == b[r..] && (two + b)[2 + r..] == b[r..];
    assert (two + b)[1..] == one + b && (one + b)[1..] == b;
    if r == 0 {
      assert (three + b)[3..] == b;
      Assoc(one, one, CollapseNewlines(b));
      assert one + one == "\n\n";
    }
  }

  /** Newline runs are collapsed on each side of any other character. */
  lemma {:induction false} CollapseAround(a: string, c: char, b: string)
    requires c != '\n'
    ensures CollapseNewlines(a + [c] + b) == CollapseNewlines(a) + [c] + CollapseNewlines(b)
    decreases |a|
  {
    hide CollapseNewlines, NewlineRun;
    Assoc(a, [c], b);
    var y := [c] + b;
    if a == [] {
      assert a + y == y && y[1..] == b;
      RunNone(y);
      CollapseStep(y);
      CollapseNothing();
      assert CollapseNewlines(a) + [c] == [c];
    } else {
      var r := NewlineRun(a);
      RunBefore(a, c, b);
      CollapseStep(a);
      CollapseStep(a + y);
      var cut := if r >= 3 then r else 1;
      assert (a + y)[cut..] == a[cut..] + y;
      Assoc(a[cut..], [c], b);
      CollapseAround(a[cut..], c, b);
      var head := if r >= 3 then "\n\n" else [a[0]];
      Assoc(head, CollapseNewlines(a[cut..]), [c]);
      Assoc(head, CollapseNewlines(a[cut..]) + [c], CollapseNewlines(b));
    }
  }

  lemma CollapseNothing()
    ensures CollapseNewlines([]) == []
  {}

  lemma RunNone(y: string)
    requires y == [] || y[0] != '\n'
    ensures NewlineRun(y) == 0
  {}

  lemma RunBefore(a: string, c: char, b: string)
    requires c != '\n'
    ensures NewlineRun(a + ([c] + b)) == NewlineRun(a)
  {
    hide NewlineRun;
    RunNone([c] + b);
    if Newlines(a) {
      RunOfNewlines(a, [c] + b);
      RunOfNewlines(a, []);
      RunNone([]);
      assert a + [] == a;
    } else {
      RunWithin(a, [c] + b);
    }
  }

  lemma {:induction false} LastText(a: string) returns (k: nat)
    requires !Newlines(a)
    ensures k < |a| && a[k] != '\n' && Newlines(a[k + 1..]) && a == a[..k] + [a[k]] + a[k + 1..]
  {
    assert forall n | 1 <= n < |a| :: a[n] == a[1..][n - 1];
    k := |a| - 1;
    while a[k] == '\n'
      invariant 0 <= k < |a| && Newlines(a[k + 1..])
      decreases k
    {
      k := k - 1;
    }
  }

  lemma NewlinesThen(m: string, b: string, three: string, two: string)
    requires Newlines(m) && three == ['\n', '\n', '\n'] && two == ['\n', '\n']
    ensures CollapseNewlines(m + (three + b)) == CollapseNewlines(m + (two + b))
  {
    hide CollapseNewlines;
    NewlinesCommute(m, three);
    NewlinesCommute(m, two);
    Assoc(m, three, b);
    Assoc(m, two, b);
    Assoc(three, m, b);
    Assoc(two, m, b);
    ThreeFirst(m + b, three, two);
  }

  /** A third newline in a row counts for nothing. */
  lemma ThreeIsTwo(a: string, b: string, three: string, two: string)
    requires three == ['\n', '\n', '\n'] && two == ['\n', '\n']
    ensures CollapseNewlines(a + (three + b)) == CollapseNewlines(a + (two + b))
  {
    hide CollapseNewlines, Newlines;
    if Newlines(a) {
      NewlinesThen(a, b, three, two);
    } else {
      var k := LastText(a);
      var p, m := a[..k] + [a[k]], a[k + 1..];
      Assoc(p, m, three + b);
      Assoc(p, m, two + b);
      CollapseAround(a[..k], a[k], m + (three + b));
      CollapseAround(a[..k], a[k], m + (two + b));
      NewlinesThen(m, b, three, two);
    }
  }

  // ---- blank runs ----

  lemma {:induction false} RunOfBlanks(a: string, b: string)
    requires Blanks(a)
    ensures BlankRun(a + b) == |a| + BlankRun(b) && (a + b)[|a|..] == b
  {
    Uncons(a, b);
    if a != [] { RunOfBlanks(a[1..], b); }
  }

  lemma BlankStep(t: string)
    requires t != []
    ensures CollapseBlanks(t) == if BlankRun(t) >= 2 then " " + CollapseBlanks(t[BlankRun(t)..])
                                 else [t[0]] + CollapseBlanks(t[1..])
    ensures BlankRun(t) > 0 <==> LineBlank(t[0])
  {}

  lemma {:induction false} BlankRunBefore(a: string, c: char, b: string)
    requires !LineBlank(c)
    ensures BlankRun(a + ([c] + b)) == BlankRun(a)
  {
    Uncons(a, [c] + b);
    if a != [] { BlankRunBefore(a[1..], c, b); }
  }

  /** Blank runs are collapsed on each side of any other character. */
  lemma {:induction false} BlanksAround(a: string, c: char, b: string)
    requires !LineBlank(c)
    ensures CollapseBlanks(a + [c] + b) == CollapseBlanks(a) + [c] + CollapseBlanks(b)
    decreases |a|
  {
    hide CollapseBlanks, BlankRun;
    Assoc(a, [c], b);
    var y := [c] + b;
    if a == [] {
      assert a + y == y && y[1..] == b;
      BlankStep(y);
      NoBlanks();
      assert CollapseBlanks(a) + [c] == [c];
    } else {
      var r := BlankRun(a);
      BlankRunBefore(a, c, b);
      BlankStep(a);
      BlankStep(a + y);
      var cut := if r >= 2 then r else 1;
      assert (a + y)[cut..] == a[cut..] + y;
      Assoc(a[cut..], [c], b);
      BlanksAround(a[cut..], c, b);
      var head := if r >= 2 then " " else [a[0]];
      Assoc(head, CollapseBlanks(a[cut..]), [c]);
      Assoc(head, CollapseBlanks(a[cut..]) + [c], CollapseBlanks(b));
    }
  }

  lemma NoBlanks()
    ensures CollapseBlanks([]) == []
  {}

  /** Blanks and what follows them, if together they are at least two. */
  lemma BlanksFirst(p: string, b: string)
    requires Blanks(p) && |p| + BlankRun(b) >= 2
    ensures CollapseBlanks(p + b) == " " + CollapseBlanks(b[BlankRun(b)..])
  {
    hide CollapseBlanks, BlankRun, Blanks;
    RunOfBlanks(p, b);
    BlankStep(p + b);
    var r := BlankRun(b);
    assert (p + b)[|p| + r..] == (p + b)[|p|..][r..];
  }

  lemma TwoFirst(m: string, b: string, two: string, one: string)
    requires Blanks(m) && |two| == 2 && Blanks(two) && one == [' ']
    ensures CollapseBlanks(m + (two + b)) == CollapseBlanks(m + (one + b))
  {
    hide CollapseBlanks, BlankRun;
    Assoc(m, two, b);
    Assoc(m, one, b);
    BlanksFirst(m + two, b);
    if |m| + BlankRun(b) >= 1 {
      BlanksFirst(m + one, b);
    } else {
      RunOfBlanks(one, b);
      BlankStep(one + b);
      assert m + (one + b) == one + b && b[0..] == b;
    }
  }

  lemma LastNonBlank(a: string) returns (k: nat)
    requires !Blanks(a)
    ensures k < |a| && !LineBlank(a[k]) && Blanks(a[k + 1..]) && a == a[..k] + [a[k]] + a[k + 1..]
  {
    assert forall n | 1 <= n < |a| :: a[n] == a[1..][n - 1];
    k := |a| - 1;
    while LineBlank(a[k])
      invariant 0 <= k < |a| && Blanks(a[k + 1..])
      decreases k
    {
      k := k - 1;
    }
  }

  /** Two blanks in a row count as one space. */
  lemma TwoIsOne(a: string, b: string, two: string, one: string)
    requires |two| == 2 && Blanks(two) && one == [' ']
    ensures CollapseBlanks(a + (two + b)) == CollapseBlanks(a + (one + b))
  {
    hide CollapseBlanks, Blanks, LineBlank;
    if Blanks(a) {
      TwoFirst(a, b, two, one);
    } else {
      var k := LastNonBlank(a);
      var p, m := a[..k] + [a[k]], a[k + 1..];
      Assoc(p, m, two + b);
      Assoc(p, m, one + b);
      BlanksAround(a[..k], a[k], m + (two + b));
      BlanksAround(a[..k], a[k], m + (one + b));
      TwoFirst(m, b, two, one);
    }
  }

  // ---- what the result looks like ----

  ghost predicate NoTriple(t: string) { forall k: nat :: !TripleAt(t, k) }
  ghost predicate NoTwoBlanks(t: string) { forall k: nat :: !TwoBlanksAt(t, k) }

  lemma TripleIsRun(t: string)
    ensures TripleAt(t, 0) <==> NewlineRun(t) >= 3
  {
    hide NewlineRun;
    Unrolled(t);
    if t != [] { Unrolled(t[1..]); }
    if |t| > 1 { Unrolled(t[2..]); }
  }

  lemma PairIsRun(t: string)
    ensures TwoBlanksAt(t, 0) <==> BlankRun(t) >= 2
  {
    hide BlankRun;
    Unrolled(t);
    if t != [] { Unrolled(t[1..]); }
  }

  lemma Unrolled(t: string)
    ensures NewlineRun(t) == if t != [] && t[0] == '\n' then 1 + NewlineRun(t[1..]) else 0
    ensures BlankRun(t) == if t != [] && LineBlank(t[0]) then 1 + BlankRun(t[1..]) else 0
    ensures |t| > 1 ==> t[1..][0] == t[1] && t[1..][1..] == t[2..]
    ensures |t| > 2 ==> t[2..][0] == t[2]
  {}

  lemma NoTripleCons(c: char, t: string)
    requires NoTriple(t) && NewlineRun([c] + t) < 3
    ensures NoTriple([c] + t)
  {
    hide NewlineRun;
    TripleIsRun([c] + t);
    forall k: nat ensures !TripleAt([c] + t, k) {
      if k > 0 { assert !TripleAt(t, k - 1); }
    }
  }

  lemma NoTwoBlanksCons(c: char, t: string)
    requires NoTwoBlanks(t) && BlankRun([c] + t) < 2
    ensures NoTwoBlanks([c] + t)
  {
    hide BlankRun;
    PairIsRun([c] + t);
    forall k: nat ensures !TwoBlanksAt([c] + t, k) {
      if k > 0 { assert !TwoBlanksAt(t, k - 1); }
    }
  }

  lemma RunCons(c: char, t: string)
    ensures NewlineRun([c] + t) == if c == '\n' then 1 + NewlineRun(t) else 0
    ensures BlankRun([c] + t) == if LineBlank(c) then 1 + BlankRun(t) else 0
  {
    assert ([c] + t)[1..] == t;
  }

  lemma {:induction false} CollapsedHasNoTriple(t: string)
    ensures NoTriple(CollapseNewlines(t)) && ('\r' !in t ==> '\r' !in CollapseNewlines(t))
    ensures NewlineRun(CollapseNewlines(t)) == if NewlineRun(t) >= 3 then 2 else NewlineRun(t)
    decreases |t|
  {
    hide CollapseNewlines, NewlineRun, NoTriple;
    if t == [] {
      CollapseNothing();
      RunNone(t);
      TripleNowhere();
    } else {
      CollapseStep(t);
      var r := NewlineRun(t);
      var u := CollapseNewlines(t[if r >= 3 then r else 1..]);
      CollapsedHasNoTriple(t[if r >= 3 then r else 1..]);
      if r >= 3 {
        RunShape(t);
        RunNone(t[r..]);
        RunCons('\n', u);
        RunCons('\n', ['\n'] + u);
        NoTripleCons('\n', u);
        NoTripleCons('\n', ['\n'] + u);
        assert "\n\n" + u == ['\n'] + (['\n'] + u);
      } else {
        assert t == [t[0]] + t[1..];
        RunCons(t[0], t[1..]);
        RunCons(t[0], u);
        NoTripleCons(t[0], u);
      }
    }
  }

  lemma TripleNowhere()
    ensures NoTriple([])
  {}

  lemma {:induction false} CollapsedBlanks(t: string)
    requires NoTriple(t)
    ensures NoTriple(CollapseBlanks(t)) && NoTwoBlanks(CollapseBlanks(t))
    ensures '\r' !in t ==> '\r' !in CollapseBlanks(t)
    ensures NewlineRun(CollapseBlanks(t)) == NewlineRun(t)
    ensures BlankRun(CollapseBlanks(t)) == if BlankRun(t) >= 2 then 1 else BlankRun(t)
    decreases |t|
  {
    hide CollapseBlanks, NewlineRun, BlankRun, NoTwoBlanks;
    if t == [] {
      NoBlanks();
      PairNowhere();
    } else {
      BlankStep(t);
      var r := BlankRun(t);
      var cut := if r >= 2 then r else 1;
      var u := CollapseBlanks(t[cut..]);
      NoTripleTail(t, cut);
      CollapsedBlanks(t[cut..]);
      TripleIsRun(t);
      assert t == [t[0]] + t[1..];
      RunCons(t[0], t[1..]);
      if r >= 2 {
        BlankRunEnds(t);
        RunCons(' ', u);
        NoTwoBlanksCons(' ', u);
        NoTripleCons(' ', u);
        assert " " + u == [' '] + u;
      } else {
        RunCons(t[0], u);
        NoTwoBlanksCons(t[0], u);
        NoTripleCons(t[0], u);
      }
    }
  }

  lemma PairNowhere()
    ensures NoTwoBlanks([])
  {}

  lemma NoTripleTail(t: string, n: nat)
    requires NoTriple(t) && n <= |t|
    ensures NoTriple(t[n..])
  {
    forall k: nat ensures !TripleAt(t[n..], k) { assert !TripleAt(t, n + k); }
  }

  lemma {:induction false} BlankRunEnds(t: string)
    ensures BlankRun(t[BlankRun(t)..]) == 0
    ensures BlankRun(t) > 0 ==> t[0] != '\n'
  {
    if t != [] && LineBlank(t[0]) {
      BlankRunEnds(t[1..]);
      assert t[BlankRun(t)..] == t[1..][BlankRun(t[1..])..];
    }
  }

  lemma {:induction false} TidyIsFixed(t: string)
    requires Tidy(t)
    ensures CollapseNewlines(t) == t && CollapseBlanks(t) == t
  {
    hide NewlineRun, BlankRun, CollapseNewlines, CollapseBlanks;
    if t == [] {
      CollapseNothing();
      NoBlanks();
    } else {
      TripleIsRun(t);
      PairIsRun(t);
      CollapseStep(t);
      BlankStep(t);
      forall k: nat ensures !TripleAt(t[1..], k) && !TwoBlanksAt(t[1..], k) {
        assert !TripleAt(t, k + 1) && !TwoBlanksAt(t, k + 1);
      }
      TidyIsFixed(t[1..]);
      assert t == [t[0]] + t[1..];
    }
  }

  lemma {:induction false} CollapsedNonSpace(t: string)
    ensures NonSpace(CollapseNewlines(t)) == NonSpace(t) && NonSpace(CollapseBlanks(t)) == NonSpace(t)
    decreases |t|
  {
    hide CollapseNewlines, CollapseBlanks, NewlineRun, BlankRun, NonSpace;
    if t == [] {
      CollapseNothing();
      NoBlanks();
    } else {
      CollapseStep(t);
      BlankStep(t);
      RunShape(t);
      BlankRunShape(t);
      var n, b := NewlineRun(t), BlankRun(t);
      Cut(t, 1);
      Cut(t, n);
      Cut(t, b);
      CollapsedNonSpace(t[1..]);
      if n >= 3 { CollapsedNonSpace(t[n..]); }
      if b >= 2 { CollapsedNonSpace(t[b..]); }
      NonSpaceConcat([t[0]], CollapseNewlines(t[1..]));
      NonSpaceConcat([t[0]], CollapseBlanks(t[1..]));
      SpacesHaveNoText("\n\n");
      SpacesHaveNoText(" ");
      NonSpaceConcat("\n\n", CollapseNewlines(t[n..]));
      NonSpaceConcat(" ", CollapseBlanks(t[b..]));
      SpacesHaveNoText(t[..n]);
      SpacesHaveNoText(t[..b]);
      assert t[..1] == [t[0]];
    }
  }

  lemma Cut(t: string, n: nat)
    requires n <= |t|
    ensures NonSpace(t) == NonSpace(t[..n]) + NonSpace(t[n..])
  {
    assert t == t[..n] + t[n..];
    NonSpaceConcat(t[..n], t[n..]);
  }

  lemma {:induction false} BlankRunShape(t: string)
    ensures Blanks(t[..BlankRun(t)])
  {
    if t != [] && LineBlank(t[0]) {
      BlankRunShape(t[1..]);
      assert t[..BlankRun(t)] == [t[0]] + t[1..][..BlankRun(t[1..])];
    }
  }

  // ---- _normalise_whitespace ----

  lemma NormaliseIs(text: string)
    ensures NormaliseWhitespace(text) == Strip(CollapseBlanks(CollapseNewlines(LineEnds(text))))
  {}

  /** The result holds the text's characters in order, and is tidy and stripped. */
  lemma NormalisedText(text: string)
    ensures var t := NormaliseWhitespace(text);
            && NonSpace(t) == NonSpace(text) && Tidy(t)
            && (t != [] ==> !IsSpace(t[0]) && !IsSpace(t[|t| - 1]))
  {
    hide NormaliseWhitespace, Strip, CollapseBlanks, CollapseNewlines, Replace, NonSpace, NewlineRun, BlankRun;
    NormaliseIs(text);
    var ends := LineEnds(text);
    var newlines := CollapseNewlines(ends);
    var blanks := CollapseBlanks(newlines);
    LineEndsResult(text);
    CollapsedHasNoTriple(ends);
    CollapsedBlanks(newlines);
    CollapsedNonSpace(ends);
    CollapsedNonSpace(newlines);
    StripKeepsTidy(blanks);
    NonSpaceStrip(blanks);
    var _, _ := StripShape(blanks);
  }

  lemma LineEndsResult(text: string)
    ensures '\r' !in LineEnds(text) && NonSpace(LineEnds(text)) == NonSpace(text)
  {
    hide Replace, NonSpace;
    SpacesHaveNoText("\r\n");
    SpacesHaveNoText("\r");
    SpacesHaveNoText("\n");
    ReplacedNonSpace(text, "\r\n", "\n");
    ReplacedNonSpace(Replace(text, "\r\n", "\n"), "\r", "\n");
    ReplacedAway(Replace(text, "\r\n", "\n"), "\r", "\n");
  }

  /** These five equations determine it: each of the first four makes a text shorter or frees
      it of a carriage return, and when none applies any more only strip() is left. */
  lemma NormaliseEquations(a: string, b: string)
    ensures '\r' !in a ==> NormaliseWhitespace(a + "\r\n" + b) == NormaliseWhitespace(a + "\n" + b)
    ensures '\r' !in a && (b == [] || b[0] != '\n') ==>
              NormaliseWhitespace(a + "\r" + b) == NormaliseWhitespace(a + "\n" + b)
    ensures '\r' !in a + b ==> NormaliseWhitespace(a + "\n\n\n" + b) == NormaliseWhitespace(a + "\n\n" + b)
    ensures '\r' !in a + b ==> forall x, y | LineBlank(x) && LineBlank(y) ::
              NormaliseWhitespace(a + [x, y] + b) == NormaliseWhitespace(a + " " + b)
    ensures Tidy(a) ==> NormaliseWhitespace(a) == Strip(a)
  {
    hide NormaliseWhitespace, Strip, CollapseBlanks, CollapseNewlines, LineEnds, NewlineRun, BlankRun;
    if '\r' !in a {
      LineEndsStep(a, b);
      NormaliseIs(a + "\r\n" + b);
      NormaliseIs(a + "\r" + b);
      NormaliseIs(a + "\n" + b);
    }
    if '\r' !in a + b {
      Collapsing(a, b, "\n\n\n", "\n\n");
      forall x, y | LineBlank(x) && LineBlank(y)
        ensures NormaliseWhitespace(a + [x, y] + b) == NormaliseWhitespace(a + " " + b)
      {
        Spacing(a, b, x, y, " ");
      }
    }
    if Tidy(a) {
      LineEndsNone(a);
      TidyIsFixed(a);
      NormaliseIs(a);
    }
  }

  lemma Collapsing(a: string, b: string, three: string, two: string)
    requires '\r' !in a + b && three == ['\n', '\n', '\n'] && two == ['\n', '\n']
    ensures NormaliseWhitespace(a + three + b) == NormaliseWhitespace(a + two + b)
  {
    hide NormaliseWhitespace, Strip, CollapseBlanks, CollapseNewlines, LineEnds;
    Assoc(a, three, b);
    Assoc(a, two, b);
    NoCrAround(a, three, b);
    NoCrAround(a, two, b);
    LineEndsNone(a + three + b);
    LineEndsNone(a + two + b);
    NormaliseIs(a + three + b);
    NormaliseIs(a + two + b);
    ThreeIsTwo(a, b, three, two);
  }

  lemma NoCrAround(a: string, mid: string, b: string)
    requires '\r' !in a + b && '\r' !in mid
    ensures '\r' !in a + mid + b
  {
    assert forall k | 0 <= k < |a| :: (a + b)[k] == a[k];
    assert forall k | 0 <= k < |b| :: (a + b)[|a| + k] == b[k];
  }

  lemma Spacing(a: string, b: string, x: char, y: char, one: string)
    requires '\r' !in a + b && LineBlank(x) && LineBlank(y) && one == [' ']
    ensures NormaliseWhitespace(a + [x, y] + b) == NormaliseWhitespace(a + one + b)
  {
    hide NormaliseWhitespace, Strip, CollapseBlanks, CollapseNewlines, LineEnds;
    NoCrAround(a, [x, y], b);
    NoCrAround(a, one, b);
    LineEndsNone(a + [x, y] + b);
    LineEndsNone(a + one + b);
    NormaliseIs(a + [x, y] + b);
    NormaliseIs(a + one + b);
    var ca, cb := CollapseNewlines(a), CollapseNewlines(b);
    assert a + [x, y] + b == a + [x] + ([y] + b) && [y] + b == [] + [y] + b;
    CollapseAround(a, x, [y] + b);
    CollapseAround([], y, b);
    CollapseAround(a, ' ', b);
    CollapseNothing();
    assert ca + [x] + ([] + [y] + cb) == ca + ([x, y] + cb) && ca + [' '] + cb == ca + (one + cb);
    TwoIsOne(ca, cb, [x, y], one);
  }
}
