// Reading back what was printed.
module JsonProofs {
  import opened Text
  import opened Decimal
  import opened Json
  import opened Results

  /** What json.dumps can be given: float lexemes as repr writes them, and no key twice. */
  ghost predicate WellFormed(j: Json)
    decreases j
  {
    match j
    case Float(l) => FloatLexeme(l)
    case Arr(items) => forall k | 0 <= k < |items| :: WellFormed(items[k])
    case Obj(fields) => DistinctKeys(fields) && forall k | 0 <= k < |fields| :: WellFormed(fields[k].value)
    case _ => true
  }

  ghost predicate DistinctKeys(fields: seq<Field>) {
    forall i, k | 0 <= i < k < |fields| :: fields[i].key != fields[k].key
  }

  lemma {:induction false} LookupMember(fields: seq<Field>, f: Field)
    requires DistinctKeys(fields) && f in fields
    ensures Lookup(fields, f.key) == Some(f.value)
  {
    var k :| 0 <= k < |fields| && fields[k] == f;
    if k > 0 {
      assert fields[1..][k - 1] == f;
      LookupMember(fields[1..], f);
    }
  }

  ghost predicate Blank(s: string) {
    forall k | 0 <= k < |s| :: IsJsonSpace(s[k])
  }

  /** A comma and a colon, each followed by white space at most. */
  ghost predicate GoodStyle(st: Style) {
    && st.item != [] && st.item[0] == ',' && Blank(st.item[1..])
    && st.key != [] && st.key[0] == ':' && Blank(st.key[1..])
  }

  /** rest cannot continue a number. */
  predicate Stops(rest: string) {
    rest == [] || !(Digit(rest[0]) || rest[0] == '.' || rest[0] == 'e' || rest[0] == 'E')
  }

  lemma {:induction false} SkipBlank(s: string, u: string)
    requires Blank(s) && (u == [] || !IsJsonSpace(u[0]))
    ensures SkipSpace(s + u) == u
    decreases |s|
  {
    Uncons(s, u);
    if s != [] { SkipBlank(s[1..], u); }
  }

  // ---- strings ----

  lemma HexDigitReads(d: nat)
    requires d < 16
    ensures IsHex(HexDigit(d)) && HexValue(HexDigit(d)) == d
  {}

  /** Hex digits are read in both cases, and nothing else is one. */
  lemma HexLetters(c: char)
    ensures IsHex(c) <==> c in "0123456789abcdefABCDEF"
    ensures forall d: nat | 10 <= d < 16 :: HexValue(('A' as int + d - 10) as char) == HexValue(HexDigit(d)) == d
  {
    var digits := "0123456789abcdefABCDEF";
    if '0' <= c <= '9' { assert digits[c as int - '0' as int] == c; }
    if 'a' <= c <= 'f' { assert digits[10 + c as int - 'a' as int] == c; }
    if 'A' <= c <= 'F' { assert digits[16 + c as int - 'A' as int] == c; }
  }

  lemma Hex4Reads(n: nat, t: string)
    requires n < 0x10000
    ensures Hex4At(Hex4(n) + t) && Hex4Value(Hex4(n) + t) == n && (Hex4(n) + t)[4..] == t
  {
    hide HexDigit, HexValue, IsHex;
    HexDigitReads(n / 4096);
    HexDigitReads(n / 256 % 16);
    HexDigitReads(n / 16 % 16);
    HexDigitReads(n % 16);
    var u := Hex4(n) + t;
    assert u[0] == HexDigit(n / 4096) && u[1] == HexDigit(n / 256 % 16);
    assert u[2] == HexDigit(n / 16 % 16) && u[3] == HexDigit(n % 16);
    FourDigits(n);
  }

  lemma FourDigits(n: nat)
    requires n < 0x10000
    ensures n == n / 4096 * 4096 + n / 256 % 16 * 256 + n / 16 % 16 * 16 + n % 16
  {
    assert n / 16 == n / 256 * 16 + n / 16 % 16;
    assert n / 256 == n / 4096 * 16 + n / 256 % 16;
  }

  /** A single \u escape of a character in the basic plane. */
  lemma BasicEscapeReads(n: nat, t: string)
    requires IsScalar(n) && n < 0x10000
    ensures ParseEscape(['u'] + Hex4(n) + t) == Done(n as char, t)
  {
    hide Hex4, Hex4At, Hex4Value;
    Hex4Reads(n, t);
    var u := ['u'] + Hex4(n) + t;
    Assoc(['u'], Hex4(n), t);
    assert u[1..] == Hex4(n) + t && u[5..] == u[1..][4..];
    assert u[0] == 'u';
  }

  lemma PairEscapeReads(v: nat, t: string)
    requires v < 0x100000
    ensures ParseEscape(['u'] + Hex4(0xD800 + v / 1024) + UnicodeEscape(0xDC00 + v % 1024) + t)
         == Done((0x10000 + v) as char, t)
  {
    hide Hex4, Hex4At, Hex4Value;
    var hi, lo := 0xD800 + v / 1024, 0xDC00 + v % 1024;
    var second := ['\\', 'u'] + (Hex4(lo) + t);
    var u := ['u'] + Hex4(hi) + UnicodeEscape(lo) + t;
    Hex4Reads(hi, second);
    Hex4Reads(lo, t);
    assert u == ['u'] + (Hex4(hi) + second);
    assert u[0] == 'u' && u[1..] == Hex4(hi) + second;
    assert u[5..] == u[1..][4..] == second;
    assert |u| >= 7 && u[5] == second[0] && u[6] == second[1];
    assert u[7..] == u[5..][2..] == Hex4(lo) + t;
    assert u[11..] == u[7..][4..] == t;
  }

  /** A two-character escape. */
  lemma ShortEscapeReads(c: char, e: char, t: string)
    requires ParseEscape([e] + t) == Done(c, t)
    ensures ParseString(['\\', e] + t) == ConsTo(c, ParseString(t))
  {
    hide ParseEscape;
    var u := ['\\', e] + t;
    assert u[0] == '\\' && u[1..] == [e] + t;
  }

  lemma ShortEscapes(t: string)
    ensures ParseEscape(['"'] + t) == Done('"', t) && ParseEscape(['\\'] + t) == Done('\\', t)
    ensures ParseEscape(['n'] + t) == Done('\n', t) && ParseEscape(['r'] + t) == Done('\r', t)
    ensures ParseEscape(['t'] + t) == Done('\t', t)
    ensures ParseEscape(['f'] + t) == Done(12 as char, t) && ParseEscape(['b'] + t) == Done(8 as char, t)
  {}

  lemma PlainCharReads(c: char, t: string)
    requires c as int >= 32 && c != '"' && c != '\\'
    ensures ParseString([c] + t) == ConsTo(c, ParseString(t))
  {
    hide ParseEscape;
    var u := [c] + t;
    assert u[0] == c && u[1..] == t;
  }

  lemma LongEscapeReads(c: char, e: string, t: string)
    requires ParseEscape(e + t) == Done(c, t)
    ensures ParseString(['\\'] + e + t) == ConsTo(c, ParseString(t))
  {
    hide ParseEscape;
    var u := ['\\'] + e + t;
    assert u[0] == '\\' && u[1..] == e + t;
  }

  lemma EscapeCharReads(c: char, t: string)
    ensures ParseString(EscapeChar(c) + t) == ConsTo(c, ParseString(t))
  {
    hide Hex4, ParseEscape, ParseString, ConsTo;
    if c == '"' || c == '\\' || c == '\n' || c == '\r' || c == '\t' || c as int == 12 || c as int == 8 {
      ShortEscapes(t);
      ShortEscapeReads(c, EscapeChar(c)[1], t);
    } else if ' ' <= c <= '~' {
      PlainCharReads(c, t);
    } else if c as int < 0x10000 {
      BasicEscapeReads(c as int, t);
      LongEscapeReads(c, ['u'] + Hex4(c as int), t);
      assert EscapeChar(c) == ['\\'] + (['u'] + Hex4(c as int));
    } else {
      var v := c as int - 0x10000;
      var e := ['u'] + Hex4(0xD800 + v / 1024) + UnicodeEscape(0xDC00 + v % 1024);
      PairEscapeReads(v, t);
      LongEscapeReads(c, e, t);
      assert EscapeChar(c) == ['\\'] + e;
    }
  }

  lemma {:induction false} StringReads(s: string, rest: string)
    ensures ParseString(Escape(s) + (['"'] + rest)) == Done(s, rest)
    decreases |s|
  {
    hide EscapeChar;
    var t := ['"'] + rest;
    if s == [] {
      Uncons<char>([], t);
      assert t[0] == '"' && t[1..] == rest;
    } else {
      StringReads(s[1..], rest);
      EscapeCharReads(s[0], Escape(s[1..]) + t);
      Assoc(EscapeChar(s[0]), Escape(s[1..]), t);
      assert [s[0]] + s[1..] == s;
    }
  }

  lemma QuotedReads(s: string, rest: string)
    ensures (Quoted(s) + rest)[0] == '"' && ParseString((Quoted(s) + rest)[1..]) == Done(s, rest)
  {
    hide Escape, ParseString;
    StringReads(s, rest);
    assert (Quoted(s) + rest)[1..] == Escape(s) + (['"'] + rest);
  }

  // ---- numbers ----

  lemma {:induction false} DigitRunOf(x: string, rest: string)
    requires DigitRun(x) < |x| || rest == [] || !Digit(rest[0])
    ensures DigitRun(x + rest) == DigitRun(x)
    decreases |x|
  {
    Uncons(x, rest);
    if x != [] && Digit(x[0]) { DigitRunOf(x[1..], rest); }
  }

  lemma IntegerLengthOf(x: string, rest: string)
    requires IntegerLength(x) > 0 && (IntegerLength(x) < |x| || rest == [] || !Digit(rest[0]))
    ensures IntegerLength(x + rest) == IntegerLength(x)
  {
    hide DigitRun;
    var sign := if x[0] == '-' then 1 else 0;
    var t := x + rest;
    assert t[sign..] == x[sign..] + rest && t[0] == x[0];
    assert t[sign] == x[sign];
    if x[sign] != '0' {
      DigitRunOf(x[sign..], rest);
    } else {
    }
  }

  lemma FractionLengthOf(x: string, rest: string)
    requires x == [] || x[0] == 'e' || x[0] == 'E' || FractionLength(x) > 0
    requires Stops(rest)
    ensures FractionLength(x + rest) == FractionLength(x)
  {
    hide DigitRun;
    var t := x + rest;
    if x == [] {
      assert t == rest;
    } else {
      assert t[0] == x[0] && t[1..] == x[1..] + rest;
      if FractionLength(x) > 0 { DigitRunOf(x[1..], rest); }
    }
  }

  lemma ExponentLengthOf(x: string, rest: string)
    requires ExponentLength(x) == |x| && Stops(rest)
    ensures ExponentLength(x + rest) == ExponentLength(x)
  {
    hide DigitRun;
    var t := x + rest;
    if x == [] {
      assert t == rest;
    } else {
      var sign := if |x| > 1 && (x[1] == '-' || x[1] == '+') then 2 else 1;
      assert t[0] == x[0] && t[1] == x[1] && t[sign..] == x[sign..] + rest;
      DigitRunOf(x[sign..], rest);
    }
  }

  lemma NumberLengthOf(l: string, rest: string)
    requires NumberLength(l) == |l| > 0 && Stops(rest)
    ensures NumberLength(l + rest) == |l| && IntegerLength(l + rest) == IntegerLength(l)
  {
    hide IntegerLength, FractionLength, ExponentLength;
    var i := IntegerLength(l);
    var f := FractionLength(l[i..]);
    IntegerLengthOf(l, rest);
    ExponentStarts(l[i..], f);
    FractionLengthOf(l[i..], rest);
    ExponentLengthOf(l[i + f..], rest);
    assert (l + rest)[i..] == l[i..] + rest;
    assert (l + rest)[i + f..] == l[i + f..] + rest;
  }

  lemma ExponentStarts(x: string, f: nat)
    requires f == FractionLength(x) && ExponentLength(x[f..]) == |x| - f
    ensures x == [] || x[0] == 'e' || x[0] == 'E' || f > 0
  {}

  lemma IntTextIsNumber(n: int)
    ensures var l := IntText(n);
            l != [] && IntegerLength(l) == NumberLength(l) == |l| && IntSyntax(l) && IntOf(l) == n
  {
    hide DigitRun, Value, Dec, FractionLength, ExponentLength;
    var l, m := IntText(n), if n < 0 then -n else n;
    var sign := if n < 0 then 1 else 0;
    assert l[sign..] == Dec(m);
    NoLeadingZero(m);
    ValueOfDec(m);
    if n >= 0 { assert l[0] != '-' by { assert Digit(Dec(m)[0]); } }
    assert l[|l|..] == [];
  }

  lemma NumberReads(l: string, rest: string)
    requires NumberLength(l) == |l| > 0 && Stops(rest)
    ensures ParseNumber(l + rest)
         == if IntegerLength(l) == |l| then (IntegerIsIntSyntax(l); assert l[..|l|] == l; Done(Int(IntOf(l)), rest))
            else Done(Float(l), rest)
  {
    hide NumberLength, IntegerLength, IntOf;
    NumberLengthOf(l, rest);
    assert (l + rest)[..|l|] == l && (l + rest)[|l|..] == rest;
  }

  lemma ConstantReads(l: string, rest: string)
    requires l != [] && NumberLength(l) == 0 && ConstantLength(l) == |l|
    ensures ParseNumber(l + rest) == Done(Float(l), rest)
  {
    var t := l + rest;
    assert l == "NaN" || l == "Infinity" || l == "-Infinity";
    assert forall k | 0 <= k < |l| :: t[k] == l[k];
    assert t[0] == l[0] && t[1] == l[1];
    assert l[..|l|] == l && t[..|l|] == l && t[|l|..] == rest;
    assert l <= t;
  }

  // ---- documents ----

  /** A number is not mistaken for anything else. */
  lemma NumberDispatch(t: string)
    requires t != [] && (Digit(t[0]) || t[0] == '-' || t[0] == 'N' || t[0] == 'I')
    ensures ParseValue(t) == ParseNumber(t)
  {
    hide ParseString, ParseItems, ParseFields, ParseNumber;
    assert "null"[0] == 'n' && "true"[0] == 't' && "false"[0] == 'f';
  }

  lemma NumberHead(l: string)
    requires l != [] && (NumberLength(l) > 0 || ConstantLength(l) > 0)
    ensures Digit(l[0]) || l[0] == '-' || l[0] == 'N' || l[0] == 'I'
  {
    if NumberLength(l) > 0 {
    } else {
      assert "NaN"[0] == 'N' && "Infinity"[0] == 'I' && "-Infinity"[0] == '-';
    }
  }

  lemma NumericReads(j: Json, st: Style, rest: string)
    requires (j.Int? || j.Float?) && WellFormed(j) && Stops(rest)
    ensures ParseValue(Print(j, st) + rest) == Done(j, rest)
  {
    hide ParseValue, ParseNumber, NumberLength, IntegerLength, ConstantLength, IntText, IntOf;
    var l := Print(j, st);
    if j.Int? { IntTextIsNumber(j.n); }
    NumberHead(l);
    assert (l + rest)[0] == l[0];
    NumberDispatch(l + rest);
    if NumberLength(l) > 0 { NumberReads(l, rest); } else { ConstantReads(l, rest); }
  }

  /** Printed values start with something that is neither white space nor a closing
      bracket. */
  lemma PrintHead(j: Json, st: Style)
    requires WellFormed(j)
    ensures Print(j, st) != []
    ensures var c := Print(j, st)[0]; !IsJsonSpace(c) && c != ']' && c != '}'
  {
    hide Escape, PrintItems, PrintFields, IntText, NumberLength, IntegerLength, ConstantLength;
    match j
    case Null => assert "null"[0] == 'n';
    case Bool(_) => assert "true"[0] == 't' && "false"[0] == 'f';
    case Int(n) => IntTextIsNumber(n); NumberHead(IntText(n));
    case Float(l) => NumberHead(l);
    case Str(_) =>
    case Arr(_) =>
    case Obj(_) =>
  }

  /** What follows a value inside a list or an object. */
  lemma SeparatorStops(sep: string, close: char, u: string)
    requires close == ']' || close == '}'
    requires sep != [] && sep[0] == ','
    ensures Stops(sep + u) && SkipSpace(sep + u) == sep + u && (sep + u)[0] == ','
    ensures Stops([close] + u) && SkipSpace([close] + u) == [close] + u
  {}

  /** The white space of a separator is skipped before the next value. */
  lemma SeparatorSkipped(sep: string, u: string)
    requires sep != [] && Blank(sep[1..]) && (u == [] || !IsJsonSpace(u[0]))
    ensures SkipSpace((sep + u)[1..]) == u
  {
    assert (sep + u)[1..] == sep[1..] + u;
    SkipBlank(sep[1..], u);
  }

  /** A list whose first value has been read: its end, or a separator and more. */
  lemma ItemsStep(t: string, v: Json, after: string)
    requires ParseValue(t) == Done(v, after) && after != [] && SkipSpace(after) == after
    ensures after[0] == ']' ==> ParseItems(t) == Done([v], after[1..])
    ensures after[0] == ',' && ParseItems(SkipSpace(after[1..])).Done? ==>
              ParseItems(t) == Done([v] + ParseItems(SkipSpace(after[1..])).value, ParseItems(SkipSpace(after[1..])).rest)
  {
    hide ParseValue;
  }

  lemma FieldsStep(key: string, t: string, v: Json, after: string, st: Style)
    requires GoodStyle(st) && t != [] && !IsJsonSpace(t[0])
    requires ParseValue(t) == Done(v, after) && after != [] && SkipSpace(after) == after
    ensures var all := Quoted(key) + (st.key + t);
            && (after[0] == '}' ==> ParseFields(all) == Done([Field(key, v)], after[1..]))
            && (after[0] == ',' && ParseFields(SkipSpace(after[1..])).Done? ==>
                  ParseFields(all) == Done([Field(key, v)] + ParseFields(SkipSpace(after[1..])).value,
                                           ParseFields(SkipSpace(after[1..])).rest))
  {
    hide ParseValue, ParseString, Escape;
    QuotedReads(key, st.key + t);
    SeparatorSkipped(st.key, t);
    assert (st.key + t)[0] == ':';
    assert SkipSpace(st.key + t) == st.key + t;
  }

  lemma StringValueReads(s: string, rest: string)
    ensures ParseValue(Quoted(s) + rest) == Done(Str(s), rest)
  {
    hide ParseItems, ParseFields, ParseNumber, ParseString, Escape;
    QuotedReads(s, rest);
  }

  lemma {:induction false} ValueReads(j: Json, st: Style, rest: string)
    requires WellFormed(j) && GoodStyle(st) && Stops(rest)
    ensures ParseValue(Print(j, st) + rest) == Done(j, rest)
    decreases j, 0
  {
    hide ParseItems, ParseFields, ParseNumber, ParseString, Quoted, PrintItems, PrintFields;
    match j {
      case Null =>
      case Bool(_) =>
      case Int(_) => NumericReads(j, st, rest);
      case Float(_) => NumericReads(j, st, rest);
      case Str(s) => StringValueReads(s, rest);
      case Arr(items) => ArrayReads(items, st, rest);
      case Obj(fields) => ObjectReads(fields, st, rest);
    }
  }

  lemma ArrayDispatch(u: string)
    requires u != [] && !IsJsonSpace(u[0])
    ensures u[0] == ']' ==> ParseValue(['['] + u) == Done(Arr([]), u[1..])
    ensures u[0] != ']' && ParseItems(u).Done? ==>
              ParseValue(['['] + u) == Done(Arr(ParseItems(u).value), ParseItems(u).rest)
  {
    hide ParseItems, ParseFields, ParseNumber, ParseString;
    var t := ['['] + u;
    assert t[0] == '[' && t[1..] == u && SkipSpace(u) == u;
  }

  lemma ObjectDispatch(u: string)
    requires u != [] && !IsJsonSpace(u[0])
    ensures u[0] == '}' ==> ParseValue(['{'] + u) == Done(Obj([]), u[1..])
    ensures u[0] != '}' && ParseFields(u).Done? ==>
              ParseValue(['{'] + u) == Done(Obj(DictOf(ParseFields(u).value)), ParseFields(u).rest)
  {
    hide ParseItems, ParseFields, ParseNumber, ParseString, DictOf;
    var t := ['{'] + u;
    assert t[0] == '{' && t[1..] == u && SkipSpace(u) == u;
  }

  lemma Brackets(open: char, inner: string, close: char, rest: string)
    ensures [open] + inner + [close] + rest == [open] + (inner + ([close] + rest))
    ensures [] + ([close] + rest) == [close] + rest && ([close] + rest)[1..] == rest
    ensures inner != [] ==> (inner + ([close] + rest))[0] == inner[0]
  {}

  lemma {:induction false} ArrayReads(items: seq<Json>, st: Style, rest: string)
    requires (forall k | 0 <= k < |items| :: WellFormed(items[k])) && GoodStyle(st)
    ensures ParseValue(['['] + PrintItems(items, st) + [']'] + rest) == Done(Arr(items), rest)
    decreases items, 3
  {
    hide ParseItems, ParseValue, Print;
    var inner := PrintItems(items, st);
    Brackets('[', inner, ']', rest);
    if items != [] {
      ItemsRead(items, st, rest);
      ItemsHead(items, st);
    }
    var u := inner + ([']'] + rest);
    assert u != [] && (items == [] ==> u[0] == ']');
    assert items != [] ==> u[0] == inner[0] && !IsJsonSpace(inner[0]);
    ArrayDispatch(u);
  }

  lemma ItemsAssoc(v: string, sep: string, more: string, close: string)
    ensures (v + (sep + more)) + close == v + (sep + (more + close))
    ensures (v + []) + close == v + close
    ensures more != [] ==> (more + close)[0] == more[0]
  {}

  lemma ItemsHead(items: seq<Json>, st: Style)
    requires items != [] && WellFormed(items[0])
    ensures var p := PrintItems(items, st); p != [] && !IsJsonSpace(p[0]) && p[0] != ']'
  {
    hide Print;
    PrintHead(items[0], st);
  }

  lemma {:induction false} ItemsRead(items: seq<Json>, st: Style, rest: string)
    requires items != [] && (forall k | 0 <= k < |items| :: WellFormed(items[k])) && GoodStyle(st)
    ensures ParseItems(PrintItems(items, st) + ([']'] + rest)) == Done(items, rest)
    decreases items, 2
  {
    hide ParseItems, ParseValue, Print, WellFormed, SkipSpace;
    var v, close := Print(items[0], st), [']'] + rest;
    if |items| == 1 {
      SeparatorStops(",", ']', rest);
      ValueReads(items[0], st, close);
      ItemsStep(v + close, items[0], close);
      ItemsAssoc(v, [], [], close);
      assert items == [items[0]] && close[1..] == rest;
    } else {
      var tail := PrintItems(items[1..], st);
      var more := tail + close;
      var after := st.item + more;
      ItemsHead(items[1..], st);
      ItemsAssoc(v, st.item, tail, close);
      SeparatorStops(st.item, ']', more);
      SeparatorSkipped(st.item, more);
      ValueReads(items[0], st, after);
      ItemsRead(items[1..], st, rest);
      ItemsStep(v + after, items[0], after);
      assert items == [items[0]] + items[1..];
    }
  }

  lemma {:induction false} ObjectReads(fields: seq<Field>, st: Style, rest: string)
    requires DistinctKeys(fields) && (forall k | 0 <= k < |fields| :: WellFormed(fields[k].value)) && GoodStyle(st)
    ensures ParseValue(['{'] + PrintFields(fields, st) + ['}'] + rest) == Done(Obj(fields), rest)
    decreases fields, 3
  {
    hide ParseFields, ParseValue, Print, Quoted, DictOf;
    var inner := PrintFields(fields, st);
    Brackets('{', inner, '}', rest);
    if fields != [] {
      FieldsRead(fields, st, rest);
      DictOfDistinct(fields);
      QuoteFirst(fields, st);
    }
    ObjectDispatch(inner + (['}'] + rest));
  }

  lemma {:induction false} FieldsRead(fields: seq<Field>, st: Style, rest: string)
    requires fields != [] && (forall k | 0 <= k < |fields| :: WellFormed(fields[k].value)) && GoodStyle(st)
    ensures ParseFields(PrintFields(fields, st) + (['}'] + rest)) == Done(fields, rest)
    decreases fields, 2
  {
    hide ParseFields, ParseValue, Print, Quoted;
    var f, close := fields[0], ['}'] + rest;
    var key, v := Quoted(f.key), Print(f.value, st);
    PrintHead(f.value, st);
    if |fields| == 1 {
      SeparatorStops(",", '}', rest);
      ValueReads(f.value, st, close);
      FieldsStep(f.key, v + close, f.value, close, st);
      FieldAssoc(key, st.key, v, [], close);
      assert fields == [f] && close[1..] == rest && Field(f.key, f.value) == f;
    } else {
      var more := PrintFields(fields[1..], st) + close;
      var after := st.item + more;
      QuoteFirst(fields[1..], st);
      assert more[0] == '"';
      SeparatorStops(st.item, '}', more);
      SeparatorSkipped(st.item, more);
      ValueReads(f.value, st, after);
      FieldsRead(fields[1..], st, rest);
      FieldsStep(f.key, v + after, f.value, after, st);
      FieldAssoc(key, st.key, v, st.item + PrintFields(fields[1..], st), close);
      Assoc(st.item, PrintFields(fields[1..], st), close);
      assert fields == [f] + fields[1..] && Field(f.key, f.value) == f;
    }
  }

  lemma FieldAssoc(key: string, sep: string, v: string, more: string, close: string)
    ensures (key + sep + v + more) + close == key + (sep + (v + (more + close)))
    ensures [] + close == close
  {}

  lemma QuoteFirst(fields: seq<Field>, st: Style)
    requires fields != []
    ensures PrintFields(fields, st) != [] && PrintFields(fields, st)[0] == '"'
  {
    hide Escape, Print;
  }

  lemma {:induction false} PutNew(fields: seq<Field>, f: Field)
    requires forall k | 0 <= k < |fields| :: fields[k].key != f.key
    ensures Put(fields, f) == fields + [f]
    decreases |fields|
  {
    if fields != [] {
      PutNew(fields[1..], f);
      assert fields == [fields[0]] + fields[1..];
    }
  }

  lemma {:induction false} DictOfDistinct(fields: seq<Field>)
    requires DistinctKeys(fields)
    ensures DictOf(fields) == fields
    decreases |fields|
  {
    if fields != [] {
      var init := fields[..|fields| - 1];
      DictOfDistinct(init);
      PutNew(init, fields[|fields| - 1]);
      assert fields == init + [fields[|fields| - 1]];
    }
  }

  /** json.loads undoes json.dumps, whatever white space the separators add. */
  lemma LoadsPrinted(j: Json, st: Style)
    requires WellFormed(j) && GoodStyle(st)
    ensures Loads(Print(j, st)) == Done(j, [])
  {
    hide Print, ParseValue;
    PrintHead(j, st);
    ValueReads(j, st, []);
    assert Print(j, st) + [] == Print(j, st);
  }

  lemma PrintInjective(a: Json, b: Json, st: Style)
    requires WellFormed(a) && WellFormed(b) && GoodStyle(st) && Print(a, st) == Print(b, st)
    ensures a == b
  {
    LoadsPrinted(a, st);
    LoadsPrinted(b, st);
  }

  lemma SourceStylesAreGood()
    ensures GoodStyle(COMPACT) && GoodStyle(SPACED)
  {}
}
