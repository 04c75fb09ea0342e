// JSON as Python's json module writes and reads it (RFC 8259, sections 4 to 7), as far as
// security/hmac_utils.py, audit/ and retrieval/index_manager.py use it.
module Json {
  import opened Decimal
  import opened Results

  /** A JSON document. Object fields keep their order of appearance. A float is known by
      its lexeme. */
  datatype Json =
    | Null
    | Bool(b: bool)
    | Int(n: int)
    | Float(lexeme: string)
    | Str(s: string)
    | Arr(items: seq<Json>)
    | Obj(fields: seq<Field>)

  datatype Field = Field(key: string, value: Json)

  /** The separators argument of json.dumps. */
  datatype Style = Style(item: string, key: string)

  const COMPACT := Style(",", ":")
  const SPACED := Style(", ", ": ")

  predicate IsJsonSpace(c: char) { c == ' ' || c == '\t' || c == '\n' || c == '\r' }

  function SkipSpace(t: string): (u: string)
    ensures |u| <= |t|
  {
    if t != [] && IsJsonSpace(t[0]) then SkipSpace(t[1..]) else t
  }

  // ---- strings ----

  function HexDigit(d: nat): (c: char)
    requires d < 16
  {
    if d < 10 then ('0' as int + d) as char else ('a' as int + d - 10) as char
  }

  predicate IsHex(c: char) { '0' <= c <= '9' || 'a' <= c <= 'f' || 'A' <= c <= 'F' }

  function HexValue(c: char): (d: nat)
    requires IsHex(c)
    ensures d < 16
  {
    if c <= '9' then c as int - '0' as int
    else if c <= 'F' then c as int - 'A' as int + 10
    else c as int - 'a' as int + 10
  }

  function Hex4(n: nat): (h: string)
    requires n < 0x10000
    ensures |h| == 4
  {
    [HexDigit(n / 4096), HexDigit(n / 256 % 16), HexDigit(n / 16 % 16), HexDigit(n % 16)]
  }

  predicate Hex4At(t: string) {
    |t| >= 4 && IsHex(t[0]) && IsHex(t[1]) && IsHex(t[2]) && IsHex(t[3])
  }

  function Hex4Value(t: string): (n: nat)
    requires Hex4At(t)
    ensures n < 0x10000
  {
    HexValue(t[0]) * 4096 + HexValue(t[1]) * 256 + HexValue(t[2]) * 16 + HexValue(t[3])
  }

  function UnicodeEscape(n: nat): string
    requires n < 0x10000
  {
    ['\\', 'u'] + Hex4(n)
  }

  /** ensure_ascii: everything outside printable ASCII is escaped, beyond the basic plane as
      a surrogate pair. */
  function EscapeChar(c: char): string {
    if c == '"' then ['\\', '"']
    else if c == '\\' then ['\\', '\\']
    else if c == '\n' then ['\\', 'n']
    else if c == '\r' then ['\\', 'r']
    else if c == '\t' then ['\\', 't']
    else if c as int == 12 then ['\\', 'f']
    else if c as int == 8 then ['\\', 'b']
    else if ' ' <= c <= '~' then [c]
    else if c as int < 0x10000 then UnicodeEscape(c as int)
    else
      var v := c as int - 0x10000;
      UnicodeEscape(0xD800 + v / 1024) + UnicodeEscape(0xDC00 + v % 1024)
  }

  function Escape(s: string): string {
    if s == [] then [] else EscapeChar(s[0]) + Escape(s[1..])
  }

  datatype Parsed<T> = Fail | Done(value: T, rest: string)

  function ConsTo(c: char, r: Parsed<string>): Parsed<string> {
    match r
    case Fail => Fail
    case Done(s, rest) => Done([c] + s, rest)
  }

  predicate IsScalar(n: nat) { n < 0xD800 || 0xE000 <= n < 0x110000 }

  /** The character that a backslash escape at the head of t stands for, and what follows
      it. A surrogate without its partner is a failure here. */
  function ParseEscape(t: string): (r: Parsed<char>)
    ensures r.Done? ==> |r.rest| < |t|
  {
    if t == [] then Fail
    else if t[0] == '"' then Done('"', t[1..])
    else if t[0] == '\\' then Done('\\', t[1..])
    else if t[0] == '/' then Done('/', t[1..])
    else if t[0] == 'n' then Done('\n', t[1..])
    else if t[0] == 'r' then Done('\r', t[1..])
    else if t[0] == 't' then Done('\t', t[1..])
    else if t[0] == 'f' then Done(12 as char, t[1..])
    else if t[0] == 'b' then Done(8 as char, t[1..])
    else if t[0] == 'u' && Hex4At(t[1..]) then
      var first := Hex4Value(t[1..]);
      if IsScalar(first) then Done(first as char, t[5..])
      else if first < 0xDC00 && |t| >= 7 && t[5] == '\\' && t[6] == 'u' && Hex4At(t[7..])
              && 0xDC00 <= Hex4Value(t[7..]) <= 0xDFFF then
        Done((0x10000 + (first - 0xD800) * 1024 + (Hex4Value(t[7..]) - 0xDC00)) as char, t[11..])
      else Fail
    else Fail
  }

  /** The rest of a string literal, after its opening quote. */
  function ParseString(t: string): (r: Parsed<string>)
    ensures r.Done? ==> |r.rest| < |t|
    decreases |t|
  {
    if t == [] then Fail
    else if t[0] == '"' then Done([], t[1..])
    else if t[0] == '\\' then
      match ParseEscape(t[1..])
      case Fail => Fail
      case Done(c, rest) => ConsTo(c, ParseString(rest))
    else if t[0] as int < 32 then Fail
    else ConsTo(t[0], ParseString(t[1..]))
  }

  // ---- numbers ----

  function DigitRun(t: string): (n: nat)
    ensures n <= |t| && AllDigits(t[..n])
    ensures n < |t| ==> !Digit(t[n])
  {
    if t != [] && Digit(t[0]) then 1 + DigitRun(t[1..]) else 0
  }

  /** -?(0|[1-9][0-9]*), 0 if it does not match. */
  function IntegerLength(t: string): (n: nat)
    ensures n <= |t|
  {
    var sign := if t != [] && t[0] == '-' then 1 else 0;
    var d := DigitRun(t[sign..]);
    if d == 0 then 0 else if t[sign] == '0' then sign + 1 else sign + d
  }

  function FractionLength(t: string): (n: nat)
    ensures n <= |t|
  {
    if t != [] && t[0] == '.' && DigitRun(t[1..]) > 0 then 1 + DigitRun(t[1..]) else 0
  }

  function ExponentLength(t: string): (n: nat)
    ensures n <= |t|
  {
    if t != [] && (t[0] == 'e' || t[0] == 'E') then
      var sign := if |t| > 1 && (t[1] == '-' || t[1] == '+') then 2 else 1;
      if DigitRun(t[sign..]) > 0 then sign + DigitRun(t[sign..]) else 0
    else 0
  }

  function NumberLength(t: string): (n: nat)
    ensures n <= |t|
  {
    var i := IntegerLength(t);
    if i == 0 then 0
    else
      var f := FractionLength(t[i..]);
      i + f + ExponentLength(t[i + f..])
  }

  /** The three constants that json writes for floats that are not numbers. */
  function ConstantLength(t: string): (n: nat)
    ensures n <= |t|
  {
    if "NaN" <= t then 3 else if "Infinity" <= t then 8 else if "-Infinity" <= t then 9 else 0
  }

  predicate FloatLexeme(l: string) {
    l != [] && (
      (NumberLength(l) == |l| && IntegerLength(l) < |l|)
      || (NumberLength(l) == 0 && ConstantLength(l) == |l|))
  }

  function IntText(n: int): string {
    if n < 0 then ['-'] + Dec(-n) else Dec(n)
  }

  predicate IntSyntax(t: string) {
    var sign := if t != [] && t[0] == '-' then 1 else 0;
    |t| > sign && AllDigits(t[sign..])
  }

  function IntOf(t: string): int
    requires IntSyntax(t)
  {
    if t[0] == '-' then -(Value(t[1..]) as int) else (assert t[0..] == t; Value(t))
  }

  lemma IntegerIsIntSyntax(t: string)
    requires IntegerLength(t) > 0
    ensures IntSyntax(t[..IntegerLength(t)])
  {
    var sign := if t[0] == '-' then 1 else 0;
    var n, d := IntegerLength(t), DigitRun(t[sign..]);
    forall k | 0 <= k < n - sign ensures Digit(t[..n][sign..][k]) {
      assert t[..n][sign..][k] == t[sign..][..d][k];
    }
  }

  function ParseNumber(t: string): (r: Parsed<Json>)
    ensures r.Done? ==> |r.rest| < |t|
  {
    var n := NumberLength(t);
    if n > 0 then
      if IntegerLength(t) == n then
        IntegerIsIntSyntax(t);
        Done(Int(IntOf(t[..n])), t[n..])
      else Done(Float(t[..n]), t[n..])
    else if ConstantLength(t) > 0 then Done(Float(t[..ConstantLength(t)]), t[ConstantLength(t)..])
    else Fail
  }

  // ---- documents ----

  function Print(j: Json, st: Style): string
    decreases j, 0
  {
    match j
    case Null => "null"
    case Bool(b) => if b then "true" else "false"
    case Int(n) => IntText(n)
    case Float(l) => l
    case Str(s) => Quoted(s)
    case Arr(items) => ['['] + PrintItems(items, st) + [']']
    case Obj(fields) => ['{'] + PrintFields(fields, st) + ['}']
  }

  function Quoted(s: string): string { ['"'] + Escape(s) + ['"'] }

  function PrintItems(items: seq<Json>, st: Style): string
    decreases items, 1
  {
    if items == [] then []
    else Print(items[0], st) + if |items| == 1 then [] else st.item + PrintItems(items[1..], st)
  }

  function PrintFields(fields: seq<Field>, st: Style): string
    decreases fields, 1
  {
    if fields == [] then []
    else Quoted(fields[0].key) + st.key + Print(fields[0].value, st)
         + if |fields| == 1 then [] else st.item + PrintFields(fields[1..], st)
  }

  /** dict(pairs): a later pair replaces the value of an earlier one with the same key. */
  function Put(fields: seq<Field>, f: Field): seq<Field> {
    if fields == [] then [f]
    else if fields[0].key == f.key then [f] + fields[1..]
    else [fields[0]] + Put(fields[1..], f)
  }

  function DictOf(pairs: seq<Field>): seq<Field> {
    if pairs == [] then [] else Put(DictOf(pairs[..|pairs| - 1]), pairs[|pairs| - 1])
  }

  /** dict.get */
  function Lookup(fields: seq<Field>, key: string): Option<Json> {
    if fields == [] then None
    else if fields[0].key == key then Some(fields[0].value)
    else Lookup(fields[1..], key)
  }

  function ParseValue(t: string): (r: Parsed<Json>)
    ensures r.Done? ==> |r.rest| < |t|
    decreases |t|, 0
  {
    if t == [] then Fail
    else if t[0] == '"' then
      match ParseString(t[1..])
      case Fail => Fail
      case Done(s, rest) => Done(Str(s), rest)
    else if t[0] == '{' then
      var u := SkipSpace(t[1..]);
      if u != [] && u[0] == '}' then Done(Obj([]), u[1..])
      else
        match ParseFields(u)
        case Fail => Fail
        case Done(fields, rest) => Done(Obj(DictOf(fields)), rest)
    else if t[0] == '[' then
      var u := SkipSpace(t[1..]);
      if u != [] && u[0] == ']' then Done(Arr([]), u[1..])
      else
        match ParseItems(u)
        case Fail => Fail
        case Done(items, rest) => Done(Arr(items), rest)
    else if "null" <= t then Done(Null, t[4..])
    else if "true" <= t then Done(Bool(true), t[4..])
    else if "false" <= t then Done(Bool(false), t[5..])
    else ParseNumber(t)
  }

  function ParseItems(t: string): (r: Parsed<seq<Json>>)
    ensures r.Done? ==> |r.rest| < |t|
    decreases |t|, 1
  {
    match ParseValue(t)
    case Fail => Fail
    case Done(v, rest) =>
      var u := SkipSpace(rest);
      if u == [] then Fail
      else if u[0] == ']' then Done([v], u[1..])
      else if u[0] == ',' then
        match ParseItems(SkipSpace(u[1..]))
        case Fail => Fail
        case Done(more, after) => Done([v] + more, after)
      else Fail
  }

  function ParseFields(t: string): (r: Parsed<seq<Field>>)
    ensures r.Done? ==> |r.rest| < |t|
    decreases |t|, 1
  {
    if t == [] || t[0] != '"' then Fail
    else
      match ParseString(t[1..])
      case Fail => Fail
      case Done(key, rest) =>
        var u := SkipSpace(rest);
        if u == [] || u[0] != ':' then Fail
        else
          match ParseValue(SkipSpace(u[1..]))
          case Fail => Fail
          case Done(v, after) =>
            var w := SkipSpace(after);
            if w == [] then Fail
            else if w[0] == '}' then Done([Field(key, v)], w[1..])
            else if w[0] == ',' then
              match ParseFields(SkipSpace(w[1..]))
              case Fail => Fail
              case Done(more, end) => Done([Field(key, v)] + more, end)
            else Fail
  }

  /** json.loads: white space around one value and nothing else. */
  function Loads(t: string): Parsed<Json> {
    match ParseValue(SkipSpace(t))
    case Fail => Fail
    case Done(v, rest) => if SkipSpace(rest) == [] then Done(v, []) else Fail
  }
}
