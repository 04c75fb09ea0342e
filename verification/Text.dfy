// String operations of Python that the retrieval code relies on.
module Text {

  /** str.isspace, which is also what \s and strip() use. */
  predicate IsSpace(c: char) {
    var n := c as int;
    || 9 <= n <= 13 || 28 <= n <= 32 || n == 0x85 || n == 0xA0 || n == 0x1680 || 0x2000 <= n <= 0x200A
    || n == 0x2028 || n == 0x2029 || n == 0x202F || n == 0x205F || n == 0x3000
  }

  function LStrip(s: string): string {
    if s != [] && IsSpace(s[0]) then LStrip(s[1..]) else s
  }

  function RStrip(s: string): string {
    if s != [] && IsSpace(s[|s| - 1]) then RStrip(s[..|s| - 1]) else s
  }

  function Strip(s: string): string { RStrip(LStrip(s)) }

  /** str.replace: leftmost occurrences, none overlapping. */
  function Replace(s: string, pat: string, rep: string): string
    requires pat != []
    decreases |s|
  {
    if s == [] then []
    else if pat <= s then rep + Replace(s[|pat|..], pat, rep)
    else [s[0]] + Replace(s[1..], pat, rep)
  }

  function Join(sep: string, parts: seq<string>): string {
    if parts == [] then []
    else if |parts| == 1 then parts[0]
    else parts[0] + sep + Join(sep, parts[1..])
  }

  function Flatten(parts: seq<string>): string {
    if parts == [] then [] else parts[0] + Flatten(parts[1..])
  }

  /** The characters of s that are not white space, in order. */
  function NonSpace(s: string): string {
    if s == [] then [] else (if IsSpace(s[0]) then [] else [s[0]]) + NonSpace(s[1..])
  }

  /** Length of the run of spaces at the head of s. */
  function SpaceRun(s: string): (n: nat)
    ensures n <= |s| && (forall k | 0 <= k < n :: IsSpace(s[k])) && (n < |s| ==> !IsSpace(s[n]))
  {
    if s != [] && IsSpace(s[0]) then 1 + SpaceRun(s[1..]) else 0
  }

  lemma Assoc<T>(x: seq<T>, y: seq<T>, z: seq<T>)
    ensures (x + y) + z == x + (y + z)
  {}

  lemma Uncons<T>(a: seq<T>, b: seq<T>)
    ensures [] + b == b
    ensures a != [] ==> (a + b)[0] == a[0] && (a + b)[1..] == a[1..] + b && a == [a[0]] + a[1..]
  {}

  lemma {:induction false} NonSpaceConcat(a: string, b: string)
    ensures NonSpace(a + b) == NonSpace(a) + NonSpace(b)
    decreases |a|
  {
    Uncons(a, b);
    if a == [] {
      Uncons<char>([], NonSpace(b));
    } else {
      var head := if IsSpace(a[0]) then [] else [a[0]];
      NonSpaceConcat(a[1..], b);
      Assoc(head, NonSpace(a[1..]), NonSpace(b));
    }
  }

  lemma {:induction false} NonSpaceLStrip(s: string)
    ensures NonSpace(LStrip(s)) == NonSpace(s)
    decreases |s|
  {
    if s != [] && IsSpace(s[0]) { NonSpaceLStrip(s[1..]); }
  }

  lemma {:induction false} NonSpaceRStrip(s: string)
    ensures NonSpace(RStrip(s)) == NonSpace(s)
    decreases |s|
  {
    if s != [] && IsSpace(s[|s| - 1]) {
      NonSpaceRStrip(s[..|s| - 1]);
      assert s == s[..|s| - 1] + [s[|s| - 1]];
      NonSpaceConcat(s[..|s| - 1], [s[|s| - 1]]);
      assert NonSpace([s[|s| - 1]]) == [];
    }
  }

  lemma NonSpaceStrip(s: string)
    ensures NonSpace(Strip(s)) == NonSpace(s)
  {
    NonSpaceLStrip(s);
    NonSpaceRStrip(LStrip(s));
  }

  lemma {:induction false} NonSpaceMembers(s: string, c: char)
    requires !IsSpace(c)
    ensures c in NonSpace(s) <==> c in s
    decreases |s|
  {
    if s != [] {
      NonSpaceMembers(s[1..], c);
      assert s == [s[0]] + s[1..];
    }
  }

  /** Text in which the head of the pattern does not occur is copied. */
  lemma {:induction false} ReplaceSkips(x: string, y: string, pat: string, rep: string)
    requires pat != [] && forall k | 0 <= k < |x| :: !(pat <= (x + y)[k..])
    ensures Replace(x + y, pat, rep) == x + Replace(y, pat, rep)
    decreases |x|
  {
    if x == [] {
      assert x + y == y;
    } else {
      var s := x + y;
      assert s[0..] == s && !(pat <= s[0..]);
      assert s[1..] == x[1..] + y;
      forall k | 0 <= k < |x[1..]| ensures !(pat <= (x[1..] + y)[k..]) {
        assert (x[1..] + y)[k..] == s[k + 1..];
      }
      ReplaceSkips(x[1..], y, pat, rep);
    }
  }

  lemma ReplaceMiss(c: char, y: string, pat: string, rep: string)
    requires pat != [] && !(pat <= [c] + y)
    ensures Replace([c] + y, pat, rep) == [c] + Replace(y, pat, rep)
  {
    assert ([c] + y)[1..] == y;
  }

  lemma ReplaceHit(x: string, y: string, rep: string)
    requires x != []
    ensures Replace(x + y, x, rep) == rep + Replace(y, x, rep)
  {
    assert x <= x + y && (x + y)[|x|..] == y;
  }

  // ---- what strip() takes off ----

  predicate AllSpace(t: string) { forall k | 0 <= k < |t| :: IsSpace(t[k]) }

  lemma {:induction false} LStripShape(s: string) returns (before: string)
    ensures s == before + LStrip(s) && AllSpace(before) && (LStrip(s) == [] || !IsSpace(LStrip(s)[0]))
  {
    before := [];
    if s != [] && IsSpace(s[0]) {
      var more := LStripShape(s[1..]);
      before := [s[0]] + more;
      assert s == [s[0]] + s[1..];
    }
  }

  lemma {:induction false} RStripShape(s: string) returns (after: string)
    ensures s == RStrip(s) + after && AllSpace(after) && (RStrip(s) == [] || !IsSpace(RStrip(s)[|RStrip(s)| - 1]))
  {
    after := [];
    if s != [] && IsSpace(s[|s| - 1]) {
      var more := RStripShape(s[..|s| - 1]);
      after := more + [s[|s| - 1]];
      assert s == s[..|s| - 1] + [s[|s| - 1]];
    }
  }

  /** strip() takes white space off both ends and nothing else. */
  lemma StripShape(s: string) returns (before: string, after: string)
    ensures s == before + Strip(s) + after && AllSpace(before) && AllSpace(after)
    ensures Strip(s) == [] || (!IsSpace(Strip(s)[0]) && !IsSpace(Strip(s)[|Strip(s)| - 1]))
  {
    hide LStrip, RStrip, IsSpace;
    before := LStripShape(s);
    after := RStripShape(LStrip(s));
    Assoc(before, Strip(s), after);
  }

  lemma StripsToNothing(s: string)
    ensures Strip(s) == [] <==> AllSpace(s)
  {
    hide Strip, IsSpace;
    var before, after := StripShape(s);
    if Strip(s) != [] { assert s[|before|] == Strip(s)[0]; }
  }

  // ---- where the parts of a join stand ----

  /** Where part k starts: behind the parts before it and a separator after each of them. */
  function Offset(sep: string, parts: seq<string>, k: nat): nat
    requires k <= |parts|
  {
    if k == 0 then 0 else Offset(sep, parts, k - 1) + |parts[k - 1]| + |sep|
  }

  lemma {:induction false} OffsetShift(sep: string, parts: seq<string>, k: nat)
    requires 0 < k <= |parts|
    ensures Offset(sep, parts, k) == |parts[0]| + |sep| + Offset(sep, parts[1..], k - 1)
  {
    if k > 1 { OffsetShift(sep, parts, k - 1); }
  }

  ghost predicate StandsAt(s: string, part: string, at: nat) {
    at + |part| <= |s| && s[at..at + |part|] == part
  }

  lemma StandsBehind(head: string, s: string, part: string, at: nat)
    requires StandsAt(s, part, at)
    ensures StandsAt(head + s, part, |head| + at)
  {
    assert (head + s)[|head| + at..|head| + at + |part|] == s[at..at + |part|];
  }

  /** Every part of a join stands at its offset, with a separator behind it except after the
      last, where the join ends. */
  lemma {:induction false} JoinOffsets(sep: string, parts: seq<string>, k: nat)
    requires k < |parts|
    ensures var s, at := Join(sep, parts), Offset(sep, parts, k);
            && StandsAt(s, parts[k], at)
            && (if k + 1 < |parts| then StandsAt(s, sep, at + |parts[k]|) else |s| == at + |parts[k]|)
    decreases |parts|
  {
    hide StandsAt, Offset;
    var s := Join(sep, parts);
    if k == 0 {
      Front(parts[0], sep, if |parts| > 1 then Join(sep, parts[1..]) else []);
      assert Offset(sep, parts, 0) == 0 by { NoOffset(sep, parts); }
    } else {
      var head := parts[0] + sep;
      var rest := Join(sep, parts[1..]);
      JoinOffsets(sep, parts[1..], k - 1);
      OffsetShift(sep, parts, k);
      StandsBehind(head, rest, parts[k], Offset(sep, parts[1..], k - 1));
      if k + 1 < |parts| { StandsBehind(head, rest, sep, Offset(sep, parts[1..], k - 1) + |parts[k]|); }
    }
  }

  lemma NoOffset(sep: string, parts: seq<string>)
    ensures Offset(sep, parts, 0) == 0
  {}

  lemma Front(a: string, sep: string, b: string)
    ensures StandsAt(a, a, 0) && StandsAt(a + sep + b, a, 0) && StandsAt(a + sep + b, sep, |a|)
  {
    assert (a + sep + b)[0..|a|] == a && (a + sep + b)[|a|..|a| + |sep|] == sep && a[0..|a|] == a;
  }
}
