// What the log sanitiser of observability/logging_config.py achieves, said of the characters
// of the text alone: which stretches are sensitive, and what becomes of them.
module LogShapes {
  import opened LogCensor
  import Text

  // ---- the three shapes ----

  /** s[i..i + n] is there, with no word character just before or just after. */
  predicate Alone(cc: CharClasses, s: string, i: nat, n: nat) {
    i + n <= |s| && (i == 0 || !cc.word(s[i - 1])) && (i + n == |s| || !cc.word(s[i + n]))
  }

  predicate PanAt(cc: CharClasses, s: string, i: nat) {
    && Alone(cc, s, i, 10)
    && (forall k | i <= k < i + 5 :: 'A' <= s[k] <= 'Z')
    && (forall k | i + 5 <= k < i + 9 :: '0' <= s[k] <= '9')
    && 'A' <= s[i + 9] <= 'Z'
  }

  predicate FourDigits(cc: CharClasses, s: string, i: nat) {
    i + 4 <= |s| && cc.digit(s[i]) && cc.digit(s[i + 1]) && cc.digit(s[i + 2]) && cc.digit(s[i + 3])
  }

  /** Between two groups: nothing, or one white-space character or hyphen. */
  predicate Gap(cc: CharClasses, s: string, i: nat, width: nat) {
    width == 0 || (width == 1 && i < |s| && (cc.space(s[i]) || s[i] == '-'))
  }

  predicate AadhaarAt(cc: CharClasses, s: string, i: nat, a: nat, b: nat) {
    && Alone(cc, s, i, 12 + a + b)
    && FourDigits(cc, s, i) && Gap(cc, s, i + 4, a)
    && FourDigits(cc, s, i + 4 + a) && Gap(cc, s, i + 8 + a, b)
    && FourDigits(cc, s, i + 8 + a + b)
  }

  predicate KeyAt(cc: CharClasses, s: string, i: nat) {
    && Alone(cc, s, i, 64)
    && forall k | i <= k < i + 64 :: '0' <= s[k] <= '9' || 'a' <= s[k] <= 'f' || 'A' <= s[k] <= 'F'
  }

  /** A stretch of n characters at i of this kind. */
  predicate SecretAt(cc: CharClasses, p: Pattern, s: string, i: nat, n: nat) {
    match p
    case Pan => n == 10 && PanAt(cc, s, i)
    case Aadhaar =>
      || (n == 12 && AadhaarAt(cc, s, i, 0, 0))
      || (n == 13 && (AadhaarAt(cc, s, i, 1, 0) || AadhaarAt(cc, s, i, 0, 1)))
      || (n == 14 && AadhaarAt(cc, s, i, 1, 1))
    case HexKey => n == 64 && KeyAt(cc, s, i)
  }

  /** None of this kind starts from..before. */
  ghost predicate NoneBetween(cc: CharClasses, p: Pattern, s: string, from: nat, before: nat) {
    forall i: nat, n: nat | from <= i < before :: !SecretAt(cc, p, s, i, n)
  }

  ghost predicate SecretFree(cc: CharClasses, s: string) {
    forall p: Pattern :: NoneBetween(cc, p, s, 0, |s|)
  }

  /** s[i..i + n] is the first secret of this kind starting at or after from. */
  ghost predicate Leftmost(cc: CharClasses, p: Pattern, s: string, from: nat, i: nat, n: nat) {
    from <= i && n > 0 && i + n <= |s| && SecretAt(cc, p, s, i, n) && NoneBetween(cc, p, s, from, i)
  }

  /** u is s[from..] with the leftmost secret of this kind replaced by its marker, and so on
      behind it. */
  ghost predicate Redacted(cc: CharClasses, p: Pattern, s: string, from: nat, u: string)
    requires from <= |s|
    decreases |s| - from
  {
    if NoneBetween(cc, p, s, from, |s|) then u == s[from..]
    else exists i: nat, n: nat, v: string ::
           Leftmost(cc, p, s, from, i, n) && u == s[from..i] + MarkerText(p) + v && Redacted(cc, p, s, i + n, v)
  }

  function MarkerText(p: Pattern): string {
    match p
    case Pan => "[PAN_REDACTED]"
    case Aadhaar => "[AADHAAR_REDACTED]"
    case HexKey => "[KEY_REDACTED]"
  }

  // ---- the matcher finds exactly the shapes ----

  predicate WordBefore(cc: CharClasses, s: string, i: nat)
    requires i <= |s|
  {
    i > 0 && cc.word(s[i - 1])
  }

  lemma PanIsMatch(cc: CharClasses, s: string, i: nat)
    requires i <= |s|
    ensures MatchLen(cc, Pan, WordBefore(cc, s, i), s[i..]) == if PanAt(cc, s, i) then 10 else 0
  {
    var t := s[i..];
    if PanAt(cc, s, i) {
      assert forall k | 0 <= k < 10 :: t[k] == s[i + k];
    } else if MatchLen(cc, Pan, WordBefore(cc, s, i), t) > 0 {
      assert forall k | i <= k < i + 10 :: s[k] == t[k - i];
    }
  }

  lemma KeyIsMatch(cc: CharClasses, s: string, i: nat)
    requires i <= |s|
    ensures MatchLen(cc, HexKey, WordBefore(cc, s, i), s[i..]) == if KeyAt(cc, s, i) then 64 else 0
  {
    var t := s[i..];
    if KeyAt(cc, s, i) {
      assert forall k | 0 <= k < 64 :: t[k] == s[i + k];
    } else if MatchLen(cc, HexKey, WordBefore(cc, s, i), t) > 0 {
      assert forall k | i <= k < i + 64 :: s[k] == t[k - i];
    }
  }

  lemma DigitsAreFour(cc: CharClasses, s: string, i: nat, at: nat)
    requires i <= |s|
    ensures DigitsAt(cc, s[i..], at) <==> FourDigits(cc, s, i + at)
  {
    var t := s[i..];
    if i + at + 4 <= |s| {
      assert t[at] == s[i + at] && t[at + 1] == s[i + at + 1];
      assert t[at + 2] == s[i + at + 2] && t[at + 3] == s[i + at + 3];
    }
  }

  /** A gap that is followed by digits has the width that skipping gives. */
  lemma GapIsSkip(cc: CharClasses, s: string, i: nat, at: nat, width: nat)
    requires cc.Lawful() && i <= |s| && FourDigits(cc, s, i + at + width)
    ensures Gap(cc, s, i + at, width) <==> SkipSeparator(cc, s[i..], at) == at + width
  {
    if i + at < |s| { assert s[i..][at] == s[i + at]; }
  }

  lemma AadhaarIsMatch(cc: CharClasses, s: string, i: nat, a: nat, b: nat)
    requires cc.Lawful() && i <= |s|
    ensures AadhaarAt(cc, s, i, a, b)
            <==> MatchLen(cc, Aadhaar, WordBefore(cc, s, i), s[i..]) == 12 + a + b
                 && SkipSeparator(cc, s[i..], 4) == 4 + a
  {
    hide FourDigits, DigitsAt, Gap, SkipSeparator, CharClasses.Lawful;
    var t := s[i..];
    DigitsAreFour(cc, s, i, 0);
    DigitsAreFour(cc, s, i, 4 + a);
    DigitsAreFour(cc, s, i, 8 + a + b);
    if FourDigits(cc, s, i + 4 + a) { GapIsSkip(cc, s, i, 4, a); }
    if FourDigits(cc, s, i + 8 + a + b) { GapIsSkip(cc, s, i, 8 + a, b); }
    if 12 + a + b < |t| { assert t[12 + a + b] == s[i + 12 + a + b]; }
  }

  lemma SkipsAtMostOne(cc: CharClasses, t: string, at: nat)
    ensures at <= SkipSeparator(cc, t, at) <= at + 1
  {}

  lemma SecretIsMatch(cc: CharClasses, p: Pattern, s: string, i: nat, n: nat)
    requires cc.Lawful() && i <= |s|
    ensures SecretAt(cc, p, s, i, n) <==> 0 < n == MatchLen(cc, p, WordBefore(cc, s, i), s[i..])
  {
    hide PanAt, KeyAt, AadhaarAt, WordBefore, CharClasses.Lawful;
    match p
    case Pan => PanIsMatch(cc, s, i);
    case HexKey => KeyIsMatch(cc, s, i);
    case Aadhaar =>
      AadhaarIsMatch(cc, s, i, 0, 0);
      AadhaarIsMatch(cc, s, i, 1, 0);
      AadhaarIsMatch(cc, s, i, 0, 1);
      AadhaarIsMatch(cc, s, i, 1, 1);
      SkipsAtMostOne(cc, s[i..], 4);
      SkipsAtMostOne(cc, s[i..], SkipSeparator(cc, s[i..], 4) + 4);
  }

  lemma CleanIsSecretFree(cc: CharClasses, s: string)
    requires cc.Lawful()
    ensures AllClean(cc, s) <==> SecretFree(cc, s)
  {
    hide MatchLen, Clean, SecretAt, CharClasses.Lawful;
    forall p: Pattern ensures Clean(cc, p, false, s) <==> NoneBetween(cc, p, s, 0, |s|) {
      CleanMeansNoMatch(cc, p, false, s);
      forall i: nat, n: nat | i < |s|
        ensures SecretAt(cc, p, s, i, n) <==> 0 < n == MatchAt(cc, p, false, s, i)
      {
        SecretIsMatch(cc, p, s, i, n);
      }
      forall i | 0 <= i < |s| ensures MatchAt(cc, p, false, s, i) > 0 ==> SecretAt(cc, p, s, i, MatchAt(cc, p, false, s, i)) {
        SecretIsMatch(cc, p, s, i, MatchAt(cc, p, false, s, i));
      }
    }
    if AllClean(cc, s) {
      forall p: Pattern ensures NoneBetween(cc, p, s, 0, |s|) {
        match p case Pan => case Aadhaar => case HexKey =>
      }
    }
  }

  // ---- the results ----

  /** After the chain no PAN, Aadhaar number or 64-digit key stands anywhere in the text. */
  lemma CensorIsComplete(cc: CharClasses, s: string)
    requires cc.Lawful()
    ensures SecretFree(cc, CensorText(cc, s))
  {
    hide SecretFree, AllClean, CensorText;
    AllPassesClean(cc, s);
    CleanIsSecretFree(cc, CensorText(cc, s));
  }

  /** Text is left alone exactly when it holds none. */
  lemma CensorLeavesAlone(cc: CharClasses, s: string)
    requires cc.Lawful()
    ensures CensorText(cc, s) == s <==> SecretFree(cc, s)
  {
    hide SecretFree, AllClean, CensorText;
    UnchangedWhenClean(cc, s);
    CleanIsSecretFree(cc, s);
  }

  lemma MarkerIsBracketed(p: Pattern)
    ensures MarkerText(p) == "[" + Marker(p) + "]"
  {
    match p
    case Pan => assert "[" + "PAN_REDACTED" + "]" == "[PAN_REDACTED]";
    case Aadhaar => assert "[" + "AADHAAR_REDACTED" + "]" == "[AADHAAR_REDACTED]";
    case HexKey => assert "[" + "KEY_REDACTED" + "]" == "[KEY_REDACTED]";
  }

  lemma RedactedThere(cc: CharClasses, p: Pattern, s: string, from: nat, i: nat, n: nat, v: string)
    requires Leftmost(cc, p, s, from, i, n) && Redacted(cc, p, s, i + n, v)
    ensures Redacted(cc, p, s, from, s[from..i] + MarkerText(p) + v)
  {
    hide SecretAt, MarkerText;
  }

  lemma RedactedFirst(cc: CharClasses, p: Pattern, s: string, from: nat, u: string)
    returns (i: nat, n: nat, v: string)
    requires from <= |s| && Redacted(cc, p, s, from, u) && !NoneBetween(cc, p, s, from, |s|)
    ensures Leftmost(cc, p, s, from, i, n) && u == s[from..i] + MarkerText(p) + v && Redacted(cc, p, s, i + n, v)
  {
    hide SecretAt, MarkerText, NoneBetween;
    i, n, v :| Leftmost(cc, p, s, from, i, n) && u == s[from..i] + MarkerText(p) + v && Redacted(cc, p, s, i + n, v);
  }

  /** Without a secret at from, the text from there on is redacted behind its first character. */
  lemma RedactedLater(cc: CharClasses, p: Pattern, s: string, from: nat, v: string)
    requires from < |s| && Redacted(cc, p, s, from + 1, v) && forall n: nat :: !SecretAt(cc, p, s, from, n)
    ensures Redacted(cc, p, s, from, [s[from]] + v)
  {
    hide SecretAt, MarkerText, Redacted;
    if NoneBetween(cc, p, s, from + 1, |s|) {
      NoneLeft(cc, p, s, from + 1, v);
      NoneLeft(cc, p, s, from, s[from..]);
      assert s[from..] == [s[from]] + v;
    } else {
      var i, n, w := RedactedFirst(cc, p, s, from + 1, v);
      assert Leftmost(cc, p, s, from, i, n);
      RedactedThere(cc, p, s, from, i, n, w);
      assert s[from..i] == [s[from]] + s[from + 1..i];
      Text.Assoc([s[from]], s[from + 1..i], MarkerText(p));
      Text.Assoc([s[from]], s[from + 1..i] + MarkerText(p), w);
    }
  }

  lemma NoneLeft(cc: CharClasses, p: Pattern, s: string, from: nat, u: string)
    requires from <= |s| && NoneBetween(cc, p, s, from, |s|)
    ensures Redacted(cc, p, s, from, u) <==> u == s[from..]
  {
    hide SecretAt, MarkerText, NoneBetween;
  }

  /** One pass replaces the leftmost secrets of its kind, and nothing else. */
  lemma {:induction false} PassRedacts(cc: CharClasses, p: Pattern, s: string, from: nat)
    requires cc.Lawful() && from <= |s|
    ensures Redacted(cc, p, s, from, Sub(cc, p, WordBefore(cc, s, from), s[from..]))
    decreases |s| - from
  {
    hide MatchLen, SecretAt, Marker, MarkerText, CharClasses.Lawful, Redacted;
    var t := s[from..];
    if from == |s| {
      NoneLeft(cc, p, s, from, []);
    } else {
      var n := MatchLen(cc, p, WordBefore(cc, s, from), t);
      SecretIsMatch(cc, p, s, from, n);
      if n > 0 {
        MatchShape(cc, p, WordBefore(cc, s, from), t);
        assert t[n - 1] == s[from + n - 1] && t[n..] == s[from + n..];
        PassRedacts(cc, p, s, from + n);
        MarkerIsBracketed(p);
        RedactedThere(cc, p, s, from, from, n, Sub(cc, p, WordBefore(cc, s, from + n), s[from + n..]));
        assert s[from..from] + MarkerText(p) == MarkerText(p);
      } else {
        assert t[0] == s[from] && t[1..] == s[from + 1..];
        PassRedacts(cc, p, s, from + 1);
        forall m: nat ensures !SecretAt(cc, p, s, from, m) { SecretIsMatch(cc, p, s, from, m); }
        RedactedLater(cc, p, s, from, Sub(cc, p, WordBefore(cc, s, from + 1), s[from + 1..]));
      }
    }
  }

  /** The sanitised text: PANs give way to their marker, then Aadhaar numbers, then keys. */
  lemma CensorRedacts(cc: CharClasses, s: string)
    requires cc.Lawful()
    ensures exists one, two :: Redacted(cc, Pan, s, 0, one) && Redacted(cc, Aadhaar, one, 0, two)
                               && Redacted(cc, HexKey, two, 0, CensorText(cc, s))
  {
    hide Redacted, Sub;
    var one := Sub(cc, Pan, false, s);
    var two := Sub(cc, Aadhaar, false, one);
    PassRedacts(cc, Pan, s, 0);
    PassRedacts(cc, Aadhaar, one, 0);
    PassRedacts(cc, HexKey, two, 0);
    assert s[0..] == s && one[0..] == one && two[0..] == two;
    assert Redacted(cc, Pan, s, 0, one) && Redacted(cc, Aadhaar, one, 0, two);
  }

  lemma SecretLength(cc: CharClasses, p: Pattern, s: string, i: nat, m: nat, n: nat)
    requires cc.Lawful() && SecretAt(cc, p, s, i, m) && SecretAt(cc, p, s, i, n)
    ensures m == n && i < |s|
  {
    hide PanAt, KeyAt;
    assert i + m <= |s| && m > 0 by { SecretFits(cc, p, s, i, m); }
    SecretIsMatch(cc, p, s, i, m);
    SecretIsMatch(cc, p, s, i, n);
  }

  lemma SecretFits(cc: CharClasses, p: Pattern, s: string, i: nat, n: nat)
    requires SecretAt(cc, p, s, i, n)
    ensures n > 0 && i + n <= |s|
  {}

  /** There is only one such text. */
  lemma {:induction false} RedactedUnique(cc: CharClasses, p: Pattern, s: string, from: nat, u: string, v: string)
    requires cc.Lawful() && from <= |s| && Redacted(cc, p, s, from, u) && Redacted(cc, p, s, from, v)
    ensures u == v
    decreases |s| - from
  {
    hide SecretAt, MarkerText, CharClasses.Lawful, Redacted;
    if NoneBetween(cc, p, s, from, |s|) {
      NoneLeft(cc, p, s, from, u);
      NoneLeft(cc, p, s, from, v);
    } else {
      var i, n, x := RedactedFirst(cc, p, s, from, u);
      var j, o, y := RedactedFirst(cc, p, s, from, v);
      assert i == j;
      SecretLength(cc, p, s, i, n, o);
      RedactedUnique(cc, p, s, i + n, x, y);
    }
  }

  /** The processor on a whole event: same keys, other values untouched, no secret left, and a
      second run changes nothing. */
  lemma CensorEventTheorem(cc: CharClasses, event: map<string, LogValue>)
    requires cc.Lawful()
    ensures CensorEvent(cc, event).Keys == event.Keys
    ensures forall k | k in event && event[k].Other? :: CensorEvent(cc, event)[k] == event[k]
    ensures forall k | k in event && event[k].Text? ::
              CensorEvent(cc, event)[k] == Text(CensorText(cc, event[k].s))
              && SecretFree(cc, CensorEvent(cc, event)[k].s)
    ensures CensorEvent(cc, CensorEvent(cc, event)) == CensorEvent(cc, event)
  {
    hide SecretFree, CensorText;
    var once := CensorEvent(cc, event);
    forall k | k in event && event[k].Text?
      ensures once[k].Text? && SecretFree(cc, once[k].s)
      ensures CensorValue(cc, once[k]) == once[k]
    {
      CensorIsComplete(cc, event[k].s);
      CensorLeavesAlone(cc, once[k].s);
    }
  }
}
