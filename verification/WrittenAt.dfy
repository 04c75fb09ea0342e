// _serialise_written_at of audit/hasher.py: a datetime as an ISO 8601 string in UTC.
module WrittenAt {
  import opened Decimal
  import opened Results

  // ---- the calendar ----

  predicate Leap(year: nat) { year % 4 == 0 && (year % 100 != 0 || year % 400 == 0) }

  function DaysInYear(year: nat): nat { if Leap(year) then 366 else 365 }

  function DaysInMonth(year: nat, month: nat): nat {
    if month == 2 then (if Leap(year) then 29 else 28)
    else if month == 4 || month == 6 || month == 9 || month == 11 then 30
    else 31
  }

  datatype Civil = Civil(year: nat, month: nat, day: nat, hour: nat, minute: nat, second: nat, micro: nat)

  const DAY: nat := 86_400_000_000

  /** The year in which day n falls, counted from the first day of year y, and the day in
      it. */
  function YearAndDay(y: nat, n: nat): (nat, nat)
    decreases n
  {
    if n < DaysInYear(y) then (y, n) else YearAndDay(y + 1, n - DaysInYear(y))
  }

  function MonthAndDay(y: nat, m: nat, n: nat): (nat, nat)
    decreases n
  {
    if m >= 12 || n < DaysInMonth(y, m) then (m, n) else MonthAndDay(y, m + 1, n - DaysInMonth(y, m))
  }

  /** The calendar fields of the microsecond t, counted from the start of year 1. */
  function CivilOf(t: nat): Civil {
    var (y, doy) := YearAndDay(1, t / DAY);
    var (m, d) := MonthAndDay(y, 1, doy);
    var r := t % DAY;
    Civil(y, m, d + 1, r / 3_600_000_000, r / 60_000_000 % 60, r / 1_000_000 % 60, r % 1_000_000)
  }

  function DaysBeforeYear(from: nat, y: nat): nat
    decreases y
  {
    if y <= from then 0 else DaysBeforeYear(from, y - 1) + DaysInYear(y - 1)
  }

  function DaysBeforeMonth(y: nat, from: nat, m: nat): nat
    decreases m
  {
    if m <= from then 0 else DaysBeforeMonth(y, from, m - 1) + DaysInMonth(y, m - 1)
  }

  /** The microsecond that calendar fields name. */
  function MicrosecondOf(c: Civil): int {
    (DaysBeforeYear(1, c.year) + DaysBeforeMonth(c.year, 1, c.month) + c.day - 1) * DAY
    + c.hour * 3_600_000_000 + c.minute * 60_000_000 + c.second * 1_000_000 + c.micro
  }

  lemma {:induction false} DaysBeforeYearFrom(from: nat, y: nat)
    requires from < y
    ensures DaysBeforeYear(from, y) == DaysInYear(from) + DaysBeforeYear(from + 1, y)
    decreases y
  {
    if y > from + 1 { DaysBeforeYearFrom(from, y - 1); }
  }

  lemma {:induction false} YearAndDayInverse(y: nat, n: nat)
    ensures var (year, doy) := YearAndDay(y, n);
            year >= y && DaysBeforeYear(y, year) + doy == n && doy < DaysInYear(year)
    decreases n
  {
    if n >= DaysInYear(y) {
      YearAndDayInverse(y + 1, n - DaysInYear(y));
      DaysBeforeYearFrom(y, YearAndDay(y, n).0);
    }
  }

  lemma {:induction false} DaysBeforeMonthFrom(y: nat, from: nat, m: nat)
    requires from < m
    ensures DaysBeforeMonth(y, from, m) == DaysInMonth(y, from) + DaysBeforeMonth(y, from + 1, m)
    decreases m
  {
    if m > from + 1 { DaysBeforeMonthFrom(y, from, m - 1); }
  }

  lemma {:induction false} MonthAndDayInverse(y: nat, m: nat, n: nat)
    requires 1 <= m <= 12 && n < DaysLeft(y, m)
    ensures var (month, d) := MonthAndDay(y, m, n);
            m <= month <= 12 && DaysBeforeMonth(y, m, month) + d == n && d < 31
    decreases n
  {
    if m < 12 && n >= DaysInMonth(y, m) {
      MonthAndDayInverse(y, m + 1, n - DaysInMonth(y, m));
      DaysBeforeMonthFrom(y, m, MonthAndDay(y, m, n).0);
    }
  }

  function DaysLeft(y: nat, m: nat): nat
    decreases 13 - m
  {
    if m >= 13 then 0 else DaysInMonth(y, m) + DaysLeft(y, m + 1)
  }

  lemma YearIsItsMonths(y: nat)
    ensures DaysLeft(y, 1) == DaysInYear(y)
  {
    assert DaysLeft(y, 11) == 61 && DaysLeft(y, 9) == 122 && DaysLeft(y, 7) == 184;
    assert DaysLeft(y, 5) == 245 && DaysLeft(y, 3) == 306;
  }

  lemma TimeOfDay(r: nat)
    requires r < DAY
    ensures var h, mi, s, u := r / 3_600_000_000, r / 60_000_000 % 60, r / 1_000_000 % 60, r % 1_000_000;
            && h < 24 && mi < 60 && s < 60 && u < 1_000_000
            && h * 3_600_000_000 + mi * 60_000_000 + s * 1_000_000 + u == r
  {
    assert r / 60_000_000 == r / 1_000_000 / 60;
    assert r / 3_600_000_000 == r / 60_000_000 / 60;
  }

  /** Calendar fields in the ranges that the fixed-width text can show. */
  predicate Printable(c: Civil) {
    c.year <= 9999 && c.month < 100 && c.day < 100 && c.hour < 100 && c.minute < 100 && c.second < 100
    && c.micro < 1_000_000
  }

  /** From the start of year 1 to the end of year 9999. */
  predicate InCalendar(t: int) { 0 <= t < 3_652_059 * DAY }

  function LeapYears(y: nat): int { y / 4 - y / 100 + y / 400 }

  lemma DivSteps(y: nat)
    requires y >= 1
    ensures y / 4 == (y - 1) / 4 + if y % 4 == 0 then 1 else 0
    ensures y / 100 == (y - 1) / 100 + if y % 100 == 0 then 1 else 0
    ensures y / 400 == (y - 1) / 400 + if y % 400 == 0 then 1 else 0
  {}

  lemma NoLeapYears()
    ensures LeapYears(0) == 0
  {}

  lemma Multiples(y: nat)
    ensures y % 400 == 0 ==> y % 100 == 0
    ensures y % 100 == 0 ==> y % 4 == 0
  {
    if y % 100 == 0 { MultipleOf(y, 25 * (y / 100)); }
    if y % 400 == 0 { MultipleOf(y, 4 * (y / 400)); }
  }

  lemma MultipleOf(y: nat, k: nat)
    ensures y == 4 * k ==> y % 4 == 0
    ensures y == 100 * k ==> y % 100 == 0
  {}

  lemma LeapStep(y: nat)
    requires y >= 1
    ensures LeapYears(y) == LeapYears(y - 1) + if Leap(y) then 1 else 0
  {
    DivSteps(y);
    Multiples(y);
  }

  lemma {:induction false} DaysBeforeYearIs(y: nat)
    requires y >= 1
    ensures DaysBeforeYear(1, y) == 365 * (y - 1) + LeapYears(y - 1)
    decreases y
  {
    hide LeapYears, Leap;
    if y > 1 {
      DaysBeforeYearIs(y - 1);
      LeapStep(y - 1);
    } else {
      assert LeapYears(0) == 0 by { NoLeapYears(); }
    }
  }

  lemma {:induction false} DaysBeforeYearGrow(y: nat, z: nat)
    requires y <= z
    ensures DaysBeforeYear(1, y) <= DaysBeforeYear(1, z)
    decreases z
  {
    if y < z { DaysBeforeYearGrow(y, z - 1); }
  }

  /** These are the moments whose year has at most four digits. */
  lemma CalendarYears(t: nat)
    ensures InCalendar(t) <==> CivilOf(t).year <= 9999
  {
    hide DaysInYear, DaysInMonth, DaysBeforeYear, MonthAndDay, YearAndDay;
    var year := YearAndDay(1, t / DAY).0;
    YearAndDayInverse(1, t / DAY);
    DaysBeforeYearIs(10_000);
    if year >= 10_000 {
      DaysBeforeYearGrow(10_000, year);
    } else {
      DaysBeforeYearGrow(year + 1, 10_000);
      NextYear(year);
    }
  }

  lemma NextYear(y: nat)
    requires y >= 1
    ensures DaysBeforeYear(1, y + 1) == DaysBeforeYear(1, y) + DaysInYear(y)
  {}

  lemma CivilInverse(t: nat)
    ensures MicrosecondOf(CivilOf(t)) == t
    ensures InCalendar(t) ==> Printable(CivilOf(t))
  {
    hide DaysInYear, DaysInMonth, DaysBeforeYear, DaysBeforeMonth, YearAndDay, MonthAndDay;
    CalendarYears(t);
    var (y, doy) := YearAndDay(1, t / DAY);
    var (m, d) := MonthAndDay(y, 1, doy);
    YearAndDayInverse(1, t / DAY);
    YearIsItsMonths(y);
    MonthAndDayInverse(y, 1, doy);
    TimeOfDay(t % DAY);
    assert t == t / DAY * DAY + t % DAY;
  }

  // ---- isoformat ----

  function Fraction(micro: nat): string {
    if micro == 0 then [] else ['.'] + Padded(6, micro)
  }

  /** datetime.isoformat in UTC: microseconds are left out when they are zero. */
  function Iso(c: Civil): string {
    Padded(4, c.year) + (['-'] + (Padded(2, c.month) + (['-'] + (Padded(2, c.day) + (['T']
    + (Padded(2, c.hour) + ([':'] + (Padded(2, c.minute) + ([':'] + (Padded(2, c.second)
    + (Fraction(c.micro) + UTC_SUFFIX)))))))))))
  }

  const UTC_SUFFIX: string := ['+', '0', '0', ':', '0', '0']

  lemma SplitEqual(a: string, b: string, x: string, y: string)
    requires a + b == x + y && |a| == |x|
    ensures a == x && b == y
  {
    assert a == (a + b)[..|a|] && x == (x + y)[..|x|];
    assert b == (a + b)[|a|..] && y == (x + y)[|x|..];
  }

  lemma PaddedEqual(width: nat, m: nat, n: nat, b: string, y: string)
    requires width >= 1 && m < Power10(width) && n < Power10(width)
    requires Padded(width, m) + b == Padded(width, n) + y
    ensures m == n && b == y
  {
    ValueOfPadded(width, m);
    ValueOfPadded(width, n);
    DecLength(m, width, Power10(width));
    DecLength(n, width, Power10(width));
    SplitEqual(Padded(width, m), b, Padded(width, n), y);
  }

  lemma Powers()
    ensures Power10(2) == 100 && Power10(4) == 10_000 && Power10(6) == 1_000_000
  {
    assert Power10(1) == 10 * Power10(0) == 10;
    assert Power10(2) == 100 && Power10(3) == 1000 && Power10(4) == 10_000;
    assert Power10(5) == 100_000;
  }

  lemma FractionEqual(m: nat, n: nat)
    requires m < 1_000_000 && n < 1_000_000 && Fraction(m) + UTC_SUFFIX == Fraction(n) + UTC_SUFFIX
    ensures m == n
  {
    hide Padded;
    assert |Fraction(m)| == |Fraction(n)|;
    SplitEqual(Fraction(m), UTC_SUFFIX, Fraction(n), UTC_SUFFIX);
    if m > 0 && n > 0 {
      Powers();
      SplitEqual(['.'], Padded(6, m), ['.'], Padded(6, n));
      assert Padded(6, m) + [] == Padded(6, n) + [];
      PaddedEqual(6, m, n, [], []);
    }
  }

  lemma FieldReads(width: nat, m: nat, n: nat, c: char, b: string, y: string)
    requires width >= 1 && m < Power10(width) && n < Power10(width)
    requires Padded(width, m) + ([c] + b) == Padded(width, n) + ([c] + y)
    ensures m == n && b == y
  {
    PaddedEqual(width, m, n, [c] + b, [c] + y);
    SplitEqual([c], b, [c], y);
  }

  lemma IsoInjective(a: Civil, b: Civil)
    requires Printable(a) && Printable(b) && Iso(a) == Iso(b)
    ensures a == b
  {
    hide Padded, Fraction, Power10;
    Powers();
    var fa, fb := Fraction(a.micro) + UTC_SUFFIX, Fraction(b.micro) + UTC_SUFFIX;
    var sa, sb := Padded(2, a.second) + fa, Padded(2, b.second) + fb;
    var ma, mb := Padded(2, a.minute) + ([':'] + sa), Padded(2, b.minute) + ([':'] + sb);
    var ha, hb := Padded(2, a.hour) + ([':'] + ma), Padded(2, b.hour) + ([':'] + mb);
    var da, db := Padded(2, a.day) + (['T'] + ha), Padded(2, b.day) + (['T'] + hb);
    var oa, ob := Padded(2, a.month) + (['-'] + da), Padded(2, b.month) + (['-'] + db);
    FieldReads(4, a.year, b.year, '-', oa, ob);
    FieldReads(2, a.month, b.month, '-', da, db);
    FieldReads(2, a.day, b.day, 'T', ha, hb);
    FieldReads(2, a.hour, b.hour, ':', ma, mb);
    FieldReads(2, a.minute, b.minute, ':', sa, sb);
    PaddedEqual(2, a.second, b.second, fa, fb);
    FractionEqual(a.micro, b.micro);
  }

  /** The digits of n stand at that place. */
  ghost predicate Shows(s: string, at: nat, width: nat, n: nat) {
    width > 0 && at + width <= |s| && AllDigits(s[at..at + width]) && Value(s[at..at + width]) == n
  }

  lemma NumberShown(s: string, at: nat, width: nat, n: nat, rest: string)
    requires at <= |s| && s[at..] == Padded(width, n) + rest && width >= 1 && n < Power10(width)
    ensures Shows(s, at, width, n) && s[at + width..] == rest
  {
    hide Padded;
    ValueOfPadded(width, n);
    DecLength(n, width, Power10(width));
    assert s[at..][..width] == s[at..at + width] && s[at..][..width] == Padded(width, n);
    assert s[at..][width..] == s[at + width..] && s[at..][width..] == rest;
  }

  lemma FieldShown(s: string, at: nat, width: nat, n: nat, c: char, rest: string)
    requires at <= |s| && s[at..] == Padded(width, n) + ([c] + rest) && width >= 1 && n < Power10(width)
    ensures Shows(s, at, width, n) && at + width < |s| && s[at + width] == c && s[at + width + 1..] == rest
  {
    hide Padded;
    NumberShown(s, at, width, n, [c] + rest);
    assert s[at + width..] == [c] + rest;
    assert s[at + width..][0] == s[at + width] && s[at + width..][1..] == s[at + width + 1..];
  }

  /** YYYY-MM-DDThh:mm:ss+00:00, with .ffffff before the offset unless it is zero. */
  lemma IsoReads(c: Civil)
    requires Printable(c)
    ensures var s := Iso(c);
            && |s| == (if c.micro == 0 then 25 else 32) && s[|s| - 6..] == ['+', '0', '0', ':', '0', '0']
            && Shows(s, 0, 4, c.year) && Shows(s, 5, 2, c.month) && Shows(s, 8, 2, c.day)
            && Shows(s, 11, 2, c.hour) && Shows(s, 14, 2, c.minute) && Shows(s, 17, 2, c.second)
            && s[4] == '-' && s[7] == '-' && s[10] == 'T' && s[13] == ':' && s[16] == ':'
            && (c.micro != 0 ==> s[19] == '.' && Shows(s, 20, 6, c.micro))
  {
    hide Padded, Power10, Shows, Fraction;
    Powers();
    var s := Iso(c);
    var se := Padded(2, c.second) + (Fraction(c.micro) + UTC_SUFFIX);
    var mi := Padded(2, c.minute) + ([':'] + se);
    var ho := Padded(2, c.hour) + ([':'] + mi);
    var da := Padded(2, c.day) + (['T'] + ho);
    var mo := Padded(2, c.month) + (['-'] + da);
    assert s[0..] == s;
    FieldShown(s, 0, 4, c.year, '-', mo);
    FieldShown(s, 5, 2, c.month, '-', da);
    FieldShown(s, 8, 2, c.day, 'T', ho);
    FieldShown(s, 11, 2, c.hour, ':', mi);
    FieldShown(s, 14, 2, c.minute, ':', se);
    NumberShown(s, 17, 2, c.second, Fraction(c.micro) + UTC_SUFFIX);
    FractionReads(s, c.micro);
  }

  lemma FractionReads(s: string, micro: nat)
    requires |s| >= 19 && s[19..] == Fraction(micro) + UTC_SUFFIX && micro < 1_000_000
    ensures |s| == (if micro == 0 then 25 else 32) && s[|s| - 6..] == ['+', '0', '0', ':', '0', '0']
    ensures micro != 0 ==> s[19] == '.' && Shows(s, 20, 6, micro)
  {
    hide Padded, Power10, Shows;
    Powers();
    var n := |Fraction(micro)|;
    assert |UTC_SUFFIX| == 6;
    assert |s| == 19 + n + 6 && s[19..][n..] == s[19 + n..] && s[19..][n..] == UTC_SUFFIX;
    assert s[|s| - 6..] == UTC_SUFFIX;
    if micro == 0 {
      assert Fraction(micro) == [];
    } else {
      ValueOfPadded(6, micro);
      DecLength(micro, 6, 1_000_000);
      assert s[19..] == ['.'] + (Padded(6, micro) + UTC_SUFFIX);
      assert s[19..][0] == s[19] && s[19..][1..] == s[20..];
      NumberShown(s, 20, 6, micro, UTC_SUFFIX);
    }
  }

  // ---- datetimes ----

  /** A datetime: its wall clock in microseconds since the start of year 1, and its offset
      from UTC in microseconds; a naive one has none. */
  datatype DateTime = DateTime(local: nat, offset: Option<int>)

  /** The moment it denotes; a naive one is taken as UTC. */
  function Instant(d: DateTime): int {
    if d.offset.None? then d.local else d.local - d.offset.value
  }

  /** The text that is signed; None is astimezone's OverflowError outside years 1 to 9999. */
  function Serialise(d: DateTime): Option<string> {
    if InCalendar(Instant(d)) then Some(Iso(CivilOf(Instant(d)))) else None
  }

  /** Two datetimes are written alike exactly when they are the same moment, in whatever
      zones they are given. */
  lemma SerialiseExactly(a: DateTime, b: DateTime)
    requires Serialise(a).Some? && Serialise(b).Some?
    ensures Serialise(a) == Serialise(b) <==> Instant(a) == Instant(b)
  {
    hide CivilOf, MicrosecondOf, Iso;
    CivilInverse(Instant(a));
    CivilInverse(Instant(b));
    if Serialise(a) == Serialise(b) {
      IsoInjective(CivilOf(Instant(a)), CivilOf(Instant(b)));
    }
  }

  lemma NoBarAfter(width: nat, n: nat, c: char, rest: string)
    requires c != '|' && '|' !in rest
    ensures '|' !in Padded(width, n) + ([c] + rest)
  {
    hide Padded;
  }

  lemma FractionHasNoBar(micro: nat, width: nat, n: nat)
    ensures '|' !in Padded(width, n) + (Fraction(micro) + UTC_SUFFIX)
  {
    hide Padded;
  }

  /** The text has no pipe, as the message format needs. */
  lemma IsoHasNoBar(c: Civil)
    ensures '|' !in Iso(c)
  {
    hide Padded, Fraction;
    var se := Padded(2, c.second) + (Fraction(c.micro) + UTC_SUFFIX);
    var mi := Padded(2, c.minute) + ([':'] + se);
    var ho := Padded(2, c.hour) + ([':'] + mi);
    var da := Padded(2, c.day) + (['T'] + ho);
    var mo := Padded(2, c.month) + (['-'] + da);
    FractionHasNoBar(c.micro, 2, c.second);
    NoBarAfter(2, c.minute, ':', se);
    NoBarAfter(2, c.hour, ':', mi);
    NoBarAfter(2, c.day, 'T', ho);
    NoBarAfter(2, c.month, '-', da);
    NoBarAfter(4, c.year, '-', mo);
  }
}
