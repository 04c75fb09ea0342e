// Decimal numerals: str(n) for an integer, and reading one back.
module Decimal {

  predicate Digit(c: char) { '0' <= c <= '9' }

  predicate AllDigits(s: string) {
    forall k | 0 <= k < |s| :: Digit(s[k])
  }

  function DigitChar(d: nat): (c: char)
    requires d < 10
    ensures Digit(c)
  {
    ('0' as int + d) as char
  }

  function DigitValue(c: char): (d: nat)
    requires Digit(c)
    ensures d < 10 && DigitChar(d) == c
  {
    c as int - '0' as int
  }

  function Dec(n: nat): (s: string)
    ensures s != [] && AllDigits(s)
  {
    if n < 10 then [DigitChar(n)] else Dec(n / 10) + [DigitChar(n % 10)]
  }

  function Value(s: string): nat
    requires AllDigits(s)
  {
    if s == [] then 0 else 10 * Value(s[..|s| - 1]) + DigitValue(s[|s| - 1])
  }

  lemma {:induction false} ValueOfDec(n: nat)
    ensures Value(Dec(n)) == n
  {
    if n >= 10 {
      ValueOfDec(n / 10);
      assert Dec(n)[..|Dec(n)| - 1] == Dec(n / 10);
    } else {
      assert Dec(n)[..0] == [];
    }
  }

  lemma {:induction false} NoLeadingZero(n: nat)
    ensures n > 0 ==> Dec(n)[0] != '0'
    ensures Dec(0) == "0"
  {
    if n >= 10 { NoLeadingZero(n / 10); }
  }

  lemma DecInjective(m: nat, n: nat)
    requires Dec(m) == Dec(n)
    ensures m == n
  {
    ValueOfDec(m);
    ValueOfDec(n);
  }

  /** Zero-padded to at least width digits, as %0*d prints. */
  function Padded(width: nat, n: nat): (s: string)
    ensures AllDigits(s)
  {
    Zeros(width - |Dec(n)|) + Dec(n)
  }

  function Zeros(k: int): (s: string)
    ensures AllDigits(s)
  {
    if k <= 0 then [] else Zeros(k - 1) + ['0']
  }

  lemma {:induction false} ZerosLength(k: int)
    ensures |Zeros(k)| == if k <= 0 then 0 else k
    decreases k
  {
    if k > 0 { ZerosLength(k - 1); }
  }

  lemma ValueSnoc(s: string, c: char)
    requires AllDigits(s) && Digit(c)
    ensures AllDigits(s + [c]) && Value(s + [c]) == 10 * Value(s) + DigitValue(c)
  {
    assert (s + [c])[..|s|] == s;
  }

  lemma {:induction false} ZerosAreNothing(k: int)
    ensures Value(Zeros(k)) == 0
    decreases k
  {
    hide Value;
    if k > 0 {
      ZerosAreNothing(k - 1);
      ValueSnoc(Zeros(k - 1), '0');
    } else {
      NoDigits();
    }
  }

  lemma NoDigits()
    ensures Value([]) == 0
  {}

  lemma {:induction false} LeadingZeros(k: int, s: string)
    requires AllDigits(s)
    ensures Value(Zeros(k) + s) == Value(s)
    decreases |s|
  {
    hide Zeros;
    if s == [] {
      ZerosAreNothing(k);
      assert Zeros(k) + s == Zeros(k);
    } else {
      var t := Zeros(k) + s;
      LeadingZeros(k, s[..|s| - 1]);
      assert t[..|t| - 1] == Zeros(k) + s[..|s| - 1];
    }
  }

  lemma ValueOfPadded(width: nat, n: nat)
    ensures Value(Padded(width, n)) == n
    ensures |Padded(width, n)| == if |Dec(n)| > width then |Dec(n)| else width
  {
    ZerosLength(width - |Dec(n)|);
    LeadingZeros(width - |Dec(n)|, Dec(n));
    ValueOfDec(n);
  }

  lemma {:induction false} DecLength(n: nat, width: nat, bound: nat)
    requires width >= 1 && n < bound && bound == Power10(width)
    ensures |Dec(n)| <= width
    decreases width
  {
    if n >= 10 {
      assert width > 1;
      DecLength(n / 10, width - 1, Power10(width - 1));
    }
  }

  function Power10(k: nat): nat {
    if k == 0 then 1 else 10 * Power10(k - 1)
  }
}
