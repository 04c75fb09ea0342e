// The log sanitiser of observability/logging_config.py: three regular-expression
// substitutions applied one after the other to every string value of a log event.
module LogCensor {

  /** The character classes \w, \d and \s of Python's str patterns. They are Unicode
      tables, so they are parameters here, fixed only on ASCII. */
  datatype CharClasses = CharClasses(word: char -> bool, digit: char -> bool, space: char -> bool) {
    ghost predicate Lawful() {
      && (forall c: char :: digit(c) ==> word(c))
      && (forall c: char :: space(c) ==> !word(c))
      && (forall c: char | c as int < 128 :: digit(c) <==> '0' <= c <= '9')
      && (forall c: char | c as int < 128 ::
            word(c) <==> ('0' <= c <= '9' || 'A' <= c <= 'Z' || 'a' <= c <= 'z' || c == '_'))
      && (forall c: char | c as int < 128 ::
            space(c) <==> (9 <= c as int <= 13 || 28 <= c as int <= 32))
    }
  }

  datatype Pattern = Pan | Aadhaar | HexKey

  predicate Upper(c: char) { 'A' <= c <= 'Z' }
  predicate Hex(c: char) { '0' <= c <= '9' || 'a' <= c <= 'f' || 'A' <= c <= 'F' }
  predicate Separator(cc: CharClasses, c: char) { cc.space(c) || c == '-' }

  predicate DigitsAt(cc: CharClasses, t: string, at: nat) {
    at + 4 <= |t| && forall k | at <= k < at + 4 :: cc.digit(t[k])
  }

  /** \b after a word character at offset n. */
  predicate WordEnds(cc: CharClasses, t: string, n: nat)
    requires n <= |t|
  {
    n == |t| || !cc.word(t[n])
  }

  /** Where the next digit group starts: an optional separator is skipped. A separator is
      never a digit, so the greedy choice is the only one that can succeed. */
  function SkipSeparator(cc: CharClasses, t: string, at: nat): (next: nat) {
    if at < |t| && Separator(cc, t[at]) then at + 1 else at
  }

  /** Length of the match at the head of t, 0 if there is none. prev says whether the
      character before t is a word character, which is all that \b looks at. */
  function MatchLen(cc: CharClasses, p: Pattern, prev: bool, t: string): (n: nat)
    ensures n <= |t|
  {
    if prev then 0
    else match p
      case Pan =>
        if |t| >= 10 && (forall k | 0 <= k < 5 :: Upper(t[k])) && (forall k | 5 <= k < 9 :: '0' <= t[k] <= '9')
           && Upper(t[9]) && WordEnds(cc, t, 10)
        then 10 else 0
      case Aadhaar =>
        var second := SkipSeparator(cc, t, 4);
        var third := SkipSeparator(cc, t, second + 4);
        if DigitsAt(cc, t, 0) && DigitsAt(cc, t, second) && DigitsAt(cc, t, third) && WordEnds(cc, t, third + 4)
        then third + 4 else 0
      case HexKey =>
        if |t| >= 64 && (forall k | 0 <= k < 64 :: Hex(t[k])) && WordEnds(cc, t, 64) then 64 else 0
  }

  function Marker(p: Pattern): string {
    match p
    case Pan => "PAN_REDACTED"
    case Aadhaar => "AADHAAR_REDACTED"
    case HexKey => "KEY_REDACTED"
  }

  /** Pattern.sub: leftmost matches, scanning on from the end of each. */
  function Sub(cc: CharClasses, p: Pattern, prev: bool, t: string): string
    decreases |t|
  {
    if t == [] then []
    else
      var n := MatchLen(cc, p, prev, t);
      if n > 0 then "[" + Marker(p) + "]" + Sub(cc, p, true, t[n..])
      else [t[0]] + Sub(cc, p, cc.word(t[0]), t[1..])
  }

  /** No match starts anywhere in t. */
  predicate Clean(cc: CharClasses, p: Pattern, prev: bool, t: string)
    decreases |t|
  {
    t == [] || (MatchLen(cc, p, prev, t) == 0 && Clean(cc, p, cc.word(t[0]), t[1..]))
  }

  /** Length of the match that starts at offset i of t; prev stands for what precedes t. */
  function MatchAt(cc: CharClasses, p: Pattern, prev: bool, t: string, i: nat): nat
    requires i <= |t|
  {
    MatchLen(cc, p, if i == 0 then prev else cc.word(t[i - 1]), t[i..])
  }

  ghost predicate NoMatchBefore(cc: CharClasses, p: Pattern, prev: bool, t: string, k: nat)
    requires k <= |t|
  {
    forall i | 0 <= i < k :: MatchAt(cc, p, prev, t, i) == 0
  }

  function CensorText(cc: CharClasses, s: string): string {
    Sub(cc, HexKey, false, Sub(cc, Aadhaar, false, Sub(cc, Pan, false, s)))
  }

  datatype LogValue = Text(s: string) | Other(repr: int)

  function CensorValue(cc: CharClasses, v: LogValue): LogValue {
    match v
    case Text(s) => Text(CensorText(cc, s))
    case Other(_) => v
  }

  function CensorEvent(cc: CharClasses, event: map<string, LogValue>): map<string, LogValue> {
    map k | k in event :: CensorValue(cc, event[k])
  }

  // ---- what a match looks like, and that it depends only on the matched text ----

  lemma MatchShape(cc: CharClasses, p: Pattern, prev: bool, t: string)
    requires cc.Lawful()
    requires MatchLen(cc, p, prev, t) > 0
    ensures var n := MatchLen(cc, p, prev, t);
            && !prev && cc.word(t[0]) && cc.word(t[n - 1]) && WordEnds(cc, t, n)
            && forall k | 0 <= k < n :: t[k] != '['
  {
    var n := MatchLen(cc, p, prev, t);
    match p
    case Pan =>
    case HexKey =>
    case Aadhaar =>
      var second := SkipSeparator(cc, t, 4);
      var third := SkipSeparator(cc, t, second + 4);
      assert cc.digit(t[0]) && cc.digit(t[third + 3]);
      forall k | 0 <= k < n ensures t[k] != '[' {
        assert cc.digit(t[k]) || Separator(cc, t[k]);
      }
  }

  lemma MatchTransfer(cc: CharClasses, p: Pattern, t: string, u: string)
    requires MatchLen(cc, p, false, t) > 0
    requires MatchLen(cc, p, false, t) <= |u| && u[..MatchLen(cc, p, false, t)] == t[..MatchLen(cc, p, false, t)]
    requires WordEnds(cc, u, MatchLen(cc, p, false, t))
    ensures MatchLen(cc, p, false, u) == MatchLen(cc, p, false, t)
  {
    var n := MatchLen(cc, p, false, t);
    assert forall k | 0 <= k < n :: u[k] == u[..n][k] == t[..n][k] == t[k];
  }

  // ---- one pass ----

  lemma SubHead(cc: CharClasses, p: Pattern, prev: bool, t: string)
    requires Sub(cc, p, prev, t) != [] && Sub(cc, p, prev, t)[0] != '['
    ensures t != [] && MatchLen(cc, p, prev, t) == 0
    ensures Sub(cc, p, prev, t) == [t[0]] + Sub(cc, p, cc.word(t[0]), t[1..])
  {}

  /** Output that contains no marker text comes unchanged from the input, with the same
      word boundary after it. */
  lemma {:induction false} Kept(cc: CharClasses, p: Pattern, prev: bool, t: string, u: string, n: nat)
    requires u == Sub(cc, p, prev, t) && 0 < n <= |u|
    requires forall k | 0 <= k < n :: u[k] != '['
    requires cc.word(u[n - 1]) && WordEnds(cc, u, n)
    ensures n <= |t| && t[..n] == u[..n] && WordEnds(cc, t, n)
    decreases n
  {
    hide MatchLen, Sub;
    SubHead(cc, p, prev, t);
    var rest := Sub(cc, p, cc.word(t[0]), t[1..]);
    KeptShift(t[0], rest, u, n, cc);
    if n > 1 {
      Kept(cc, p, cc.word(t[0]), t[1..], rest, n - 1);
    } else {
      KeptBoundary(cc, p, t[1..], rest);
    }
    assert t == [t[0]] + t[1..];
  }

  lemma KeptShift(c: char, rest: string, u: string, n: nat, cc: CharClasses)
    requires u == [c] + rest && 0 < n <= |u|
    ensures n > 1 && (forall k | 0 <= k < n :: u[k] != '[') ==> forall k | 0 <= k < n - 1 :: rest[k] != '['
    ensures n > 1 ==> rest[n - 2] == u[n - 1]
    ensures WordEnds(cc, u, n) == WordEnds(cc, rest, n - 1)
  {
    assert forall k | 0 <= k < |rest| :: rest[k] == u[k + 1];
  }

  lemma KeptBoundary(cc: CharClasses, p: Pattern, t: string, rest: string)
    requires rest == Sub(cc, p, true, t)
    ensures t == [] <==> rest == []
    ensures t != [] ==> rest[0] == t[0]
  {}

  lemma {:induction false} CleanDrop(cc: CharClasses, p: Pattern, prev: bool, t: string, n: nat)
    requires 0 < n <= |t| && Clean(cc, p, prev, t)
    ensures Clean(cc, p, cc.word(t[n - 1]), t[n..])
    decreases n
  {
    if n > 1 {
      CleanDrop(cc, p, cc.word(t[0]), t[1..], n - 1);
      assert t[1..][n - 1..] == t[n..];
    }
  }

  lemma {:induction false} CleanInsideWord(cc: CharClasses, p: Pattern, w: string, v: string)
    requires cc.Lawful() && (forall c | c in w :: cc.word(c))
    requires Clean(cc, p, false, v)
    ensures Clean(cc, p, true, w + "]" + v)
    decreases |w|
  {
    if w == [] {
      var t := w + "]" + v;
      assert t[0] == ']' && t[1..] == v;
    } else {
      var t := w + "]" + v;
      assert t[1..] == w[1..] + "]" + v;
      assert t[0] == w[0] && w[0] in w;
      CleanInsideWord(cc, p, w[1..], v);
    }
  }

  lemma MarkerNeverMatches(cc: CharClasses, q: Pattern, p: Pattern, v: string)
    requires cc.Lawful()
    ensures MatchLen(cc, q, false, Marker(p) + "]" + v) == 0
  {
    var u := Marker(p) + "]" + v;
    var bar := if p == Aadhaar then 7 else 3;
    assert u[bar] == Marker(p)[bar] == '_';
    assert u[0] == Marker(p)[0] && !cc.digit(u[0]);
  }

  lemma MarkerIsOneWord(cc: CharClasses, p: Pattern)
    requires cc.Lawful()
    ensures Marker(p) != [] && forall c | c in Marker(p) :: cc.word(c)
  {}

  lemma CleanCons(cc: CharClasses, q: Pattern, prev: bool, c: char, t: string)
    requires MatchLen(cc, q, prev, [c] + t) == 0 && Clean(cc, q, cc.word(c), t)
    ensures Clean(cc, q, prev, [c] + t)
  {
    hide MatchLen;
    assert ([c] + t)[1..] == t;
  }

  lemma BracketNeverMatches(cc: CharClasses, q: Pattern, prev: bool, t: string)
    requires cc.Lawful()
    ensures MatchLen(cc, q, prev, ['['] + t) == 0 && !cc.word('[')
  {
    hide MatchLen;
    if MatchLen(cc, q, prev, ['['] + t) > 0 { MatchShape(cc, q, prev, ['['] + t); }
  }

  lemma CleanAroundMarker(cc: CharClasses, q: Pattern, p: Pattern, prev: bool, v: string)
    requires cc.Lawful() && Clean(cc, q, false, v)
    ensures Clean(cc, q, prev, "[" + Marker(p) + "]" + v)
  {
    hide MatchLen, Clean, Marker;
    var w := Marker(p);
    MarkerNeverMatches(cc, q, p, v);
    MarkerIsOneWord(cc, p);
    var rest := w[1..] + "]" + v;
    assert w + "]" + v == [w[0]] + rest && w[0] in w;
    CleanInsideWord(cc, q, w[1..], v);
    CleanCons(cc, q, false, w[0], rest);
    BracketNeverMatches(cc, q, prev, w + "]" + v);
    CleanCons(cc, q, prev, '[', w + "]" + v);
    assert "[" + w + "]" + v == ['['] + (w + "]" + v);
  }

  /** At text that is copied, the output matches q only if the input does. */
  lemma NoNewMatch(cc: CharClasses, q: Pattern, p: Pattern, prev: bool, prevOut: bool, t: string, u: string)
    requires cc.Lawful() && t != [] && u == Sub(cc, p, prev, t) && MatchLen(cc, p, prev, t) == 0
    requires MatchLen(cc, q, prev, t) == 0
    requires prev == prevOut || !cc.word(t[0])
    ensures MatchLen(cc, q, prevOut, u) == 0
  {
    hide MatchLen;
    assert u[0] == t[0];
    var m := MatchLen(cc, q, prevOut, u);
    if m > 0 {
      MatchShape(cc, q, prevOut, u);
      Kept(cc, p, prev, t, u, m);
      MatchTransfer(cc, q, u, t);
    }
  }

  /** A pass leaves no match of its own pattern and creates none of another: p is the
      pattern substituted, q one that either is p or had no match before. The flag before
      the output differs from the one before the input only right after a marker. */
  lemma {:induction false} PassKeepsClean(cc: CharClasses, q: Pattern, p: Pattern, prev: bool, prevOut: bool, t: string)
    requires cc.Lawful()
    requires q == p || Clean(cc, q, prev, t)
    requires prev == prevOut || t == [] || !cc.word(t[0])
    ensures Clean(cc, q, prevOut, Sub(cc, p, prev, t))
    decreases |t|
  {
    hide MatchLen, Marker;
    if t != [] {
      var n := MatchLen(cc, p, prev, t);
      if n > 0 {
        MatchShape(cc, p, prev, t);
        if q != p { CleanDrop(cc, q, prev, t, n); }
        PassKeepsClean(cc, q, p, true, false, t[n..]);
        CleanAroundMarker(cc, q, p, prevOut, Sub(cc, p, true, t[n..]));
      } else {
        var before := cc.word(t[0]);
        PassKeepsClean(cc, q, p, before, before, t[1..]);
        NoNewMatch(cc, q, p, prev, prevOut, t, Sub(cc, p, prev, t));
        CleanCons(cc, q, prevOut, t[0], Sub(cc, p, before, t[1..]));
      }
    }
  }

  lemma {:induction false} SubOfClean(cc: CharClasses, p: Pattern, prev: bool, t: string)
    requires cc.Lawful()
    ensures Sub(cc, p, prev, t) == t <==> Clean(cc, p, prev, t)
    decreases |t|
  {
    if t != [] {
      var n := MatchLen(cc, p, prev, t);
      if n > 0 {
        assert Sub(cc, p, prev, t)[0] == '[';
        MatchShape(cc, p, prev, t);
      } else {
        SubOfClean(cc, p, cc.word(t[0]), t[1..]);
        assert t == [t[0]] + t[1..];
        assert Sub(cc, p, prev, t)[1..] == Sub(cc, p, cc.word(t[0]), t[1..]);
      }
    }
  }

  lemma MatchAtHead(cc: CharClasses, p: Pattern, prev: bool, t: string)
    ensures MatchAt(cc, p, prev, t, 0) == MatchLen(cc, p, prev, t)
  {
    assert t[0..] == t;
  }

  lemma NoMatchShift(cc: CharClasses, p: Pattern, prev: bool, t: string, k: nat)
    requires 0 < k <= |t|
    ensures NoMatchBefore(cc, p, prev, t, k)
       <==> MatchLen(cc, p, prev, t) == 0 && NoMatchBefore(cc, p, cc.word(t[0]), t[1..], k - 1)
  {
    MatchAtHead(cc, p, prev, t);
    forall i | 0 <= i < k - 1 ensures MatchAt(cc, p, cc.word(t[0]), t[1..], i) == MatchAt(cc, p, prev, t, i + 1) {
    }
    if NoMatchBefore(cc, p, cc.word(t[0]), t[1..], k - 1) && MatchLen(cc, p, prev, t) == 0 {
      forall i | 0 <= i < k ensures MatchAt(cc, p, prev, t, i) == 0 {
        if i > 0 { assert MatchAt(cc, p, cc.word(t[0]), t[1..], i - 1) == 0; }
      }
    }
  }

  lemma {:induction false} CleanMeansNoMatch(cc: CharClasses, p: Pattern, prev: bool, t: string)
    ensures Clean(cc, p, prev, t) <==> NoMatchBefore(cc, p, prev, t, |t|)
    decreases |t|
  {
    if t != [] {
      NoMatchShift(cc, p, prev, t, |t|);
      CleanMeansNoMatch(cc, p, cc.word(t[0]), t[1..]);
    }
  }

  lemma Prepend(t: string, k: nat, tail: string)
    requires 0 < k <= |t|
    ensures [t[0]] + (t[1..][..k - 1] + tail) == t[..k] + tail
  {}

  /** The leftmost match, and nothing but it, gives way to the marker; scanning goes on
      behind it. */
  lemma {:induction false} SubAtLeftmost(cc: CharClasses, p: Pattern, prev: bool, t: string, k: nat, n: nat)
    requires k < |t| && 0 < n == MatchAt(cc, p, prev, t, k)
    requires NoMatchBefore(cc, p, prev, t, k)
    ensures Sub(cc, p, prev, t) == t[..k] + ("[" + Marker(p) + "]" + Sub(cc, p, true, t[k + n..]))
    decreases k
  {
    hide MatchLen, Marker, NoMatchBefore;
    if k == 0 {
      MatchAtHead(cc, p, prev, t);
      assert Sub(cc, p, prev, t) == "[" + Marker(p) + "]" + Sub(cc, p, true, t[n..]);
    } else {
      NoMatchShift(cc, p, prev, t, k);
      SubAtLeftmost(cc, p, cc.word(t[0]), t[1..], k - 1, n);
      var tail := "[" + Marker(p) + "]" + Sub(cc, p, true, t[k + n..]);
      assert t[1..][k - 1 + n..] == t[k + n..];
      Prepend(t, k, tail);
    }
  }

  // ---- the three passes ----

  predicate AllClean(cc: CharClasses, s: string) {
    Clean(cc, Pan, false, s) && Clean(cc, Aadhaar, false, s) && Clean(cc, HexKey, false, s)
  }

  /** After the chain no pattern matches anywhere: later passes recreate nothing. */
  lemma AllPassesClean(cc: CharClasses, s: string)
    requires cc.Lawful()
    ensures AllClean(cc, CensorText(cc, s))
  {
    var one := Sub(cc, Pan, false, s);
    var two := Sub(cc, Aadhaar, false, one);
    PassKeepsClean(cc, Pan, Pan, false, false, s);
    PassKeepsClean(cc, Pan, Aadhaar, false, false, one);
    PassKeepsClean(cc, Aadhaar, Aadhaar, false, false, one);
    PassKeepsClean(cc, Pan, HexKey, false, false, two);
    PassKeepsClean(cc, Aadhaar, HexKey, false, false, two);
    PassKeepsClean(cc, HexKey, HexKey, false, false, two);
  }

  lemma UnchangedWhenClean(cc: CharClasses, s: string)
    requires cc.Lawful()
    ensures CensorText(cc, s) == s <==> AllClean(cc, s)
  {
    AllPassesClean(cc, s);
    if AllClean(cc, s) {
      SubOfClean(cc, Pan, false, s);
      SubOfClean(cc, Aadhaar, false, s);
      SubOfClean(cc, HexKey, false, s);
    }
  }
}
