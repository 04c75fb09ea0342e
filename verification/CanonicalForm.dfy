// canonical_json of security/hmac_utils.py: sorted keys, no white space, ASCII only.
module CanonicalForm {
  import opened Json
  import opened JsonProofs
  import opened Results
  import opened Text

  // ---- key order ----

  /** Python's order on str: by code points, a prefix first. */
  predicate KeyLess(a: string, b: string) {
    b != [] && (a == [] || a[0] < b[0] || (a[0] == b[0] && KeyLess(a[1..], b[1..])))
  }

  lemma {:induction false} KeyLessIrreflexive(a: string)
    ensures !KeyLess(a, a)
    decreases |a|
  {
    if a != [] { KeyLessIrreflexive(a[1..]); }
  }

  lemma {:induction false} KeyLessTransitive(a: string, b: string, c: string)
    requires KeyLess(a, b) && KeyLess(b, c)
    ensures KeyLess(a, c)
    decreases |a|
  {
    if a != [] && a[0] == b[0] == c[0] { KeyLessTransitive(a[1..], b[1..], c[1..]); }
  }

  lemma {:induction false} KeyLessTotal(a: string, b: string)
    ensures a == b || KeyLess(a, b) || KeyLess(b, a)
    decreases |a|
  {
    if a != [] && b != [] && a[0] == b[0] {
      KeyLessTotal(a[1..], b[1..]);
      assert a == [a[0]] + a[1..] && b == [b[0]] + b[1..];
    }
  }

  /** a and b agree before n, where a ends or has the smaller character. */
  predicate LessFrom(a: string, b: string, n: nat) {
    n <= |a| && n < |b| && a[..n] == b[..n] && (n == |a| || a[n] < b[n])
  }

  /** The order is decided where the two first differ. */
  lemma {:induction false} KeyLessExactly(a: string, b: string)
    ensures KeyLess(a, b) <==> exists n: nat :: LessFrom(a, b, n)
    decreases |a|
  {
    if a != [] && b != [] && a[0] == b[0] {
      KeyLessExactly(a[1..], b[1..]);
      forall n: nat ensures LessFrom(a[1..], b[1..], n) <==> LessFrom(a, b, n + 1) {
        if n <= |a| - 1 && n <= |b| - 1 {
          assert a[..n + 1] == [a[0]] + a[1..][..n] && b[..n + 1] == [b[0]] + b[1..][..n];
          assert a[..n + 1][1..] == a[1..][..n] && b[..n + 1][1..] == b[1..][..n];
        }
      }
      forall n: nat | LessFrom(a, b, n) ensures KeyLess(a, b) { assert LessFrom(a[1..], b[1..], n - 1); }
    } else if b != [] && (a == [] || a[0] < b[0]) {
      assert LessFrom(a, b, 0);
    } else {
      forall n: nat ensures !LessFrom(a, b, n) {
        if n > 0 && n <= |a| && n <= |b| { assert a[..n][0] == a[0] && b[..n][0] == b[0]; }
      }
    }
  }

  ghost predicate Sorted(fields: seq<Field>) {
    forall i, k | 0 <= i < k < |fields| :: KeyLess(fields[i].key, fields[k].key)
  }

  function Insert(f: Field, sorted: seq<Field>): seq<Field> {
    if sorted == [] || KeyLess(f.key, sorted[0].key) then [f] + sorted
    else [sorted[0]] + Insert(f, sorted[1..])
  }

  function SortFields(fields: seq<Field>): seq<Field> {
    if fields == [] then [] else Insert(fields[0], SortFields(fields[1..]))
  }

  ghost predicate SameMembers(a: seq<Field>, b: seq<Field>) {
    forall f :: f in a <==> f in b
  }

  lemma SortedCons(f: Field, rest: seq<Field>)
    requires Sorted(rest) && (rest == [] || KeyLess(f.key, rest[0].key))
    ensures Sorted([f] + rest)
  {
    hide KeyLess;
    var s := [f] + rest;
    forall i, k | 0 <= i < k < |s| ensures KeyLess(s[i].key, s[k].key) {
      if i == 0 && k > 1 { KeyLessTransitive(f.key, rest[0].key, rest[k - 1].key); }
    }
  }

  lemma {:induction false} InsertSorts(f: Field, sorted: seq<Field>)
    requires Sorted(sorted) && forall g | g in sorted :: g.key != f.key
    ensures Sorted(Insert(f, sorted))
    ensures forall g :: g in Insert(f, sorted) <==> g == f || g in sorted
    ensures Insert(f, sorted)[0] == f || (sorted != [] && Insert(f, sorted)[0] == sorted[0])
    decreases |sorted|
  {
    hide KeyLess;
    if sorted == [] || KeyLess(f.key, sorted[0].key) {
      SortedCons(f, sorted);
    } else {
      InsertSorts(f, sorted[1..]);
      KeyLessTotal(f.key, sorted[0].key);
      assert sorted[0] in sorted && sorted == [sorted[0]] + sorted[1..];
      SortedCons(sorted[0], Insert(f, sorted[1..]));
    }
  }

  lemma {:induction false} SortFieldsSorts(fields: seq<Field>)
    requires DistinctKeys(fields)
    ensures Sorted(SortFields(fields)) && SameMembers(SortFields(fields), fields)
    decreases |fields|
  {
    hide Insert, KeyLess;
    if fields != [] {
      SortFieldsSorts(fields[1..]);
      assert fields == [fields[0]] + fields[1..];
      InsertSorts(fields[0], SortFields(fields[1..]));
    }
  }

  lemma SortedDistinct(fields: seq<Field>)
    requires Sorted(fields)
    ensures DistinctKeys(fields)
  {
    hide KeyLess;
    forall i, k | 0 <= i < k < |fields| ensures fields[i].key != fields[k].key {
      KeyLessIrreflexive(fields[i].key);
    }
  }

  lemma HasMember(b: seq<Field>)
    requires b != []
    ensures exists f :: f in b
  {
    assert b[0] in b;
  }

  /** Whatever sorting method is used, the sorted list of a set of fields is unique. */
  lemma {:induction false} SortedUnique(a: seq<Field>, b: seq<Field>)
    requires Sorted(a) && Sorted(b) && SameMembers(a, b)
    ensures a == b
    decreases |a|
  {
    hide KeyLess;
    if a == [] {
      if b != [] { HasMember(b); }
    } else {
      assert a[0] in a && a[0] in b && b[0] in b && b[0] in a;
      if a[0] != b[0] {
        KeyLessTransitive(a[0].key, b[0].key, a[0].key);
        KeyLessIrreflexive(a[0].key);
      }
      TailMembers(a, b);
      SortedUnique(a[1..], b[1..]);
      assert a == [a[0]] + a[1..] && b == [b[0]] + b[1..];
    }
  }

  lemma HeadNotInTail(a: seq<Field>)
    requires Sorted(a) && a != []
    ensures a[0] !in a[1..] && Sorted(a[1..]) && a == [a[0]] + a[1..]
  {
    hide KeyLess;
    forall k | 0 <= k < |a| - 1 ensures a[1..][k] != a[0] {
      KeyLessIrreflexive(a[0].key);
      assert a[1..][k] == a[k + 1];
    }
  }

  lemma TailMembers(a: seq<Field>, b: seq<Field>)
    requires a != [] && b != [] && a[0] == b[0] && Sorted(a) && Sorted(b) && SameMembers(a, b)
    ensures Sorted(a[1..]) && Sorted(b[1..]) && SameMembers(a[1..], b[1..])
  {
    hide KeyLess;
    HeadNotInTail(a);
    HeadNotInTail(b);
    forall f ensures f in a[1..] <==> f in b[1..] {
      assert f in a[1..] <==> f in a && f != a[0];
      assert f in b[1..] <==> f in b && f != b[0];
    }
  }

  // ---- sort_keys ----

  function SortKeys(j: Json): Json
    decreases j, 0
  {
    match j
    case Arr(items) => Arr(SortItems(items))
    case Obj(fields) => Obj(SortFields(SortValues(fields)))
    case _ => j
  }

  function SortItems(items: seq<Json>): (r: seq<Json>)
    ensures |r| == |items|
    decreases items, 1
  {
    if items == [] then [] else [SortKeys(items[0])] + SortItems(items[1..])
  }

  function SortValues(fields: seq<Field>): (r: seq<Field>)
    ensures |r| == |fields|
    decreases fields, 1
  {
    if fields == [] then []
    else [Field(fields[0].key, SortKeys(fields[0].value))] + SortValues(fields[1..])
  }

  lemma {:induction false} SortItemsAt(items: seq<Json>, k: nat)
    requires k < |items|
    ensures SortItems(items)[k] == SortKeys(items[k])
    decreases |items|
  {
    if k > 0 { SortItemsAt(items[1..], k - 1); }
  }

  lemma {:induction false} SortValuesAt(fields: seq<Field>, k: nat)
    requires k < |fields|
    ensures SortValues(fields)[k] == Field(fields[k].key, SortKeys(fields[k].value))
    decreases |fields|
  {
    if k > 0 { SortValuesAt(fields[1..], k - 1); }
  }

  lemma SortValuesDistinct(fields: seq<Field>)
    requires DistinctKeys(fields)
    ensures DistinctKeys(SortValues(fields))
  {
    hide SortValues;
    forall k | 0 <= k < |fields| ensures SortValues(fields)[k].key == fields[k].key { SortValuesAt(fields, k); }
  }

  /** The fields of a sorted object are the sorted fields of the object. */
  lemma SortedObject(fields: seq<Field>)
    requires DistinctKeys(fields)
    ensures Sorted(SortFields(SortValues(fields)))
    ensures SameMembers(SortFields(SortValues(fields)), SortValues(fields))
  {
    SortValuesDistinct(fields);
    SortFieldsSorts(SortValues(fields));
  }

  lemma {:induction false} SortKeysWellFormed(j: Json)
    requires WellFormed(j)
    ensures WellFormed(SortKeys(j))
    decreases j
  {
    hide SortItems, SortValues, SortFields;
    match j {
      case Arr(items) =>
        forall k | 0 <= k < |items| ensures WellFormed(SortItems(items)[k]) {
          SortItemsAt(items, k);
          SortKeysWellFormed(items[k]);
        }
      case Obj(fields) =>
        var s := SortFields(SortValues(fields));
        SortedObject(fields);
        SortedDistinct(s);
        forall i | 0 <= i < |s| ensures WellFormed(s[i].value) {
          assert s[i] in SortValues(fields);
          var k :| 0 <= k < |fields| && SortValues(fields)[k] == s[i];
          SortValuesAt(fields, k);
          SortKeysWellFormed(fields[k].value);
        }
      case _ =>
    }
  }

  // ---- equality up to key order ----

  ghost predicate HasKey(fields: seq<Field>, key: string) {
    exists k :: 0 <= k < |fields| && fields[k].key == key
  }

  /** Equal up to the order of object keys, at every depth. */
  ghost predicate Same(a: Json, b: Json)
    decreases a
  {
    match a
    case Arr(xs) =>
      b.Arr? && |xs| == |b.items| && forall k | 0 <= k < |xs| :: Same(xs[k], b.items[k])
    case Obj(fs) =>
      && b.Obj?
      && (forall key :: HasKey(fs, key) <==> HasKey(b.fields, key))
      && forall i, k | 0 <= i < |fs| && 0 <= k < |b.fields| && fs[i].key == b.fields[k].key ::
           Same(fs[i].value, b.fields[k].value)
    case _ => a == b
  }

  lemma {:induction false} SameSorted(a: Json, b: Json)
    requires WellFormed(a) && WellFormed(b) && Same(a, b)
    ensures SortKeys(a) == SortKeys(b)
    decreases a
  {
    hide SortItems, SortValues, SortFields;
    match a {
      case Arr(xs) =>
        forall k | 0 <= k < |xs| ensures SortItems(xs)[k] == SortItems(b.items)[k] {
          SortItemsAt(xs, k);
          SortItemsAt(b.items, k);
          SameSorted(xs[k], b.items[k]);
        }
      case Obj(fs) =>
        var gs := b.fields;
        SortedObject(fs);
        SortedObject(gs);
        forall f ensures f in SortValues(fs) <==> f in SortValues(gs) {
          if f in SortValues(fs) {
            var i :| 0 <= i < |fs| && SortValues(fs)[i] == f;
            SortValuesAt(fs, i);
            assert HasKey(fs, fs[i].key);
            var k :| 0 <= k < |gs| && gs[k].key == fs[i].key;
            SortValuesAt(gs, k);
            SameSorted(fs[i].value, gs[k].value);
            assert SortValues(gs)[k] == f;
          }
          if f in SortValues(gs) {
            var k :| 0 <= k < |gs| && SortValues(gs)[k] == f;
            SortValuesAt(gs, k);
            assert HasKey(gs, gs[k].key);
            var i :| 0 <= i < |fs| && fs[i].key == gs[k].key;
            SortValuesAt(fs, i);
            SameSorted(fs[i].value, gs[k].value);
            assert SortValues(fs)[i] == f;
          }
        }
        SortedUnique(SortFields(SortValues(fs)), SortFields(SortValues(gs)));
      case _ =>
    }
  }

  lemma SortedKeepsKey(fields: seq<Field>, sorted: seq<Field>, key: string)
    requires SameMembers(sorted, SortValues(fields))
    ensures HasKey(fields, key) <==> HasKey(sorted, key)
  {
    hide SortValues;
    var vs := SortValues(fields);
    forall k | 0 <= k < |fields| ensures vs[k].key == fields[k].key { SortValuesAt(fields, k); }
    if HasKey(fields, key) {
      var k :| 0 <= k < |fields| && fields[k].key == key;
      assert vs[k] in vs;
      var i :| 0 <= i < |sorted| && sorted[i] == vs[k];
    }
    if HasKey(sorted, key) {
      var i :| 0 <= i < |sorted| && sorted[i].key == key;
      assert sorted[i] in vs;
      var k :| 0 <= k < |vs| && vs[k] == sorted[i];
      assert fields[k].key == key;
    }
  }

  lemma {:induction false} SortedSame(a: Json, b: Json)
    requires WellFormed(a) && WellFormed(b) && SortKeys(a) == SortKeys(b)
    ensures Same(a, b)
    decreases a
  {
    hide SortItems, SortValues, SortFields, HasKey;
    match a {
      case Arr(xs) =>
        forall k | 0 <= k < |xs| ensures Same(xs[k], b.items[k]) {
          SortItemsAt(xs, k);
          SortItemsAt(b.items, k);
          SortedSame(xs[k], b.items[k]);
        }
      case Obj(fs) =>
        var gs, sorted := b.fields, SortFields(SortValues(fs));
        SortedObject(fs);
        SortedObject(gs);
        SortedDistinct(sorted);
        forall key ensures HasKey(fs, key) <==> HasKey(gs, key) {
          SortedKeepsKey(fs, sorted, key);
          SortedKeepsKey(gs, sorted, key);
        }
        forall i, k | 0 <= i < |fs| && 0 <= k < |gs| && fs[i].key == gs[k].key
          ensures Same(fs[i].value, gs[k].value)
        {
          SortValuesAt(fs, i);
          SortValuesAt(gs, k);
          assert SortValues(fs)[i] in sorted && SortValues(gs)[k] in sorted;
          SortedSame(fs[i].value, gs[k].value);
        }
      case _ =>
    }
  }

  // ---- canonical_json ----

  /** json.dumps(j, sort_keys=True, separators=(",", ":"), ensure_ascii=True). */
  function Canonical(j: Json): string { Print(SortKeys(j), COMPACT) }

  /** Two values have the same canonical bytes exactly when they are equal up to key order. */
  lemma CanonicalExactly(a: Json, b: Json)
    requires WellFormed(a) && WellFormed(b)
    ensures Canonical(a) == Canonical(b) <==> Same(a, b)
  {
    hide SortKeys, Print, Same;
    SourceStylesAreGood();
    SortKeysWellFormed(a);
    SortKeysWellFormed(b);
    if Canonical(a) == Canonical(b) {
      PrintInjective(SortKeys(a), SortKeys(b), COMPACT);
      SortedSame(a, b);
    }
    if Same(a, b) { SameSorted(a, b); }
  }

  lemma {:induction false} SortKeysIdempotent(j: Json)
    requires WellFormed(j)
    ensures SortKeys(SortKeys(j)) == SortKeys(j)
    decreases j
  {
    hide SortItems, SortValues, SortFields;
    match j {
      case Arr(items) =>
        var s := SortItems(items);
        forall k | 0 <= k < |items| ensures SortItems(s)[k] == s[k] {
          SortItemsAt(items, k);
          SortItemsAt(s, k);
          SortKeysIdempotent(items[k]);
        }
      case Obj(fields) =>
        var s := SortFields(SortValues(fields));
        SortedObject(fields);
        SortedDistinct(s);
        forall i | 0 <= i < |s| ensures SortValues(s)[i] == s[i] {
          assert s[i] in SortValues(fields);
          var k :| 0 <= k < |fields| && SortValues(fields)[k] == s[i];
          SortValuesAt(fields, k);
          SortValuesAt(s, i);
          SortKeysIdempotent(fields[k].value);
        }
        assert SortValues(s) == s;
        SortFieldsSorts(s);
        SortedUnique(SortFields(s), s);
      case _ =>
    }
  }

  /** Writing with sorted keys, in any style, reading back and canonicalising again gives the
      canonical form of the original. */
  lemma CanonicalSurvivesArchive(j: Json, st: Style)
    requires WellFormed(j) && GoodStyle(st)
    ensures Loads(Print(SortKeys(j), st)) == Done(SortKeys(j), [])
    ensures Canonical(SortKeys(j)) == Canonical(j)
    ensures WellFormed(SortKeys(j))
  {
    hide SortKeys, Print, Loads;
    SortKeysWellFormed(j);
    LoadsPrinted(SortKeys(j), st);
    SortKeysIdempotent(j);
  }

  // ---- ensure_ascii ----

  /** Printable ASCII, so that .encode("utf-8") and .decode("utf-8") are the identity. */
  ghost predicate Ascii(s: string) {
    forall k | 0 <= k < |s| :: ' ' <= s[k] <= '~'
  }

  lemma AsciiConcat(a: string, b: string)
    ensures Ascii(a) && Ascii(b) ==> Ascii(a + b)
  {}

  lemma HexIsAscii(n: nat)
    requires n < 0x10000
    ensures Ascii(Hex4(n))
  {}

  lemma EscapeCharAscii(c: char)
    ensures Ascii(EscapeChar(c))
  {
    hide Hex4;
    if c as int < 0x10000 {
      HexIsAscii(c as int);
    } else {
      HexIsAscii(0xD800 + (c as int - 0x10000) / 1024);
      HexIsAscii(0xDC00 + (c as int - 0x10000) % 1024);
    }
  }

  lemma {:induction false} EscapeAscii(s: string)
    ensures Ascii(Escape(s))
    decreases |s|
  {
    hide EscapeChar;
    if s != [] {
      EscapeCharAscii(s[0]);
      EscapeAscii(s[1..]);
      AsciiConcat(EscapeChar(s[0]), Escape(s[1..]));
    }
  }

  lemma NumberPartsAscii(t: string)
    ensures Ascii(t[..IntegerLength(t)]) && Ascii(t[..FractionLength(t)]) && Ascii(t[..ExponentLength(t)])
  {
    hide DigitRun;
    forall at: nat | at <= 2 && at <= |t| ensures forall k | at <= k < at + DigitRun(t[at..]) :: ' ' <= t[k] <= '~' {
      forall k | at <= k < at + DigitRun(t[at..]) ensures ' ' <= t[k] <= '~' {
        assert t[k] == t[at..][..DigitRun(t[at..])][k - at];
      }
    }
  }

  lemma FloatAscii(l: string)
    requires FloatLexeme(l)
    ensures Ascii(l)
  {
    hide IntegerLength, FractionLength, ExponentLength;
    if NumberLength(l) == |l| {
      var i := IntegerLength(l);
      var f := FractionLength(l[i..]);
      NumberPartsAscii(l);
      NumberPartsAscii(l[i..]);
      NumberPartsAscii(l[i + f..]);
      AsciiConcat(l[..i], l[i..][..f]);
      AsciiConcat(l[..i] + l[i..][..f], l[i + f..]);
      assert l[i + f..][..|l| - i - f] == l[i + f..];
      assert l == l[..i] + l[i..][..f] + l[i + f..];
    } else {
      assert l == "NaN" || l == "Infinity" || l == "-Infinity" by { assert l == l[..ConstantLength(l)]; }
    }
  }

  lemma {:induction false} PrintAscii(j: Json)
    requires WellFormed(j)
    ensures Ascii(Print(j, COMPACT))
    decreases j, 0
  {
    hide Escape, IntText, FloatLexeme;
    match j {
      case Null => assert Ascii("null");
      case Bool(_) => assert Ascii("true") && Ascii("false");
      case Int(n) => IntTextAscii(n);
      case Float(l) => FloatAscii(l);
      case Str(s) => EscapeAscii(s);
      case Arr(items) => ItemsAscii(items);
      case Obj(fields) => FieldsAscii(fields);
    }
  }

  lemma IntTextAscii(n: int)
    ensures Ascii(IntText(n))
  {
    hide Decimal.Dec;
    var d := Decimal.Dec(if n < 0 then -n else n);
    assert forall k | 0 <= k < |d| :: Decimal.Digit(d[k]);
  }

  lemma {:induction false} ItemsAscii(items: seq<Json>)
    requires forall k | 0 <= k < |items| :: WellFormed(items[k])
    ensures Ascii(PrintItems(items, COMPACT))
    decreases items, 1
  {
    hide Print, WellFormed;
    if items != [] {
      PrintAscii(items[0]);
      if |items| > 1 {
        ItemsAscii(items[1..]);
        AsciiConcat(COMPACT.item, PrintItems(items[1..], COMPACT));
        AsciiConcat(Print(items[0], COMPACT), COMPACT.item + PrintItems(items[1..], COMPACT));
      }
    }
  }

  lemma {:induction false} FieldsAscii(fields: seq<Field>)
    requires forall k | 0 <= k < |fields| :: WellFormed(fields[k].value)
    ensures Ascii(PrintFields(fields, COMPACT))
    decreases fields, 1
  {
    hide Print, WellFormed, Escape;
    if fields != [] {
      var key, v := Quoted(fields[0].key), Print(fields[0].value, COMPACT);
      EscapeAscii(fields[0].key);
      PrintAscii(fields[0].value);
      AsciiConcat(key, COMPACT.key);
      AsciiConcat(key + COMPACT.key, v);
      if |fields| > 1 {
        FieldsAscii(fields[1..]);
        AsciiConcat(COMPACT.item, PrintFields(fields[1..], COMPACT));
        AsciiConcat(key + COMPACT.key + v, COMPACT.item + PrintFields(fields[1..], COMPACT));
      }
    }
  }

  /** Canonical text is printable ASCII. */
  lemma CanonicalIsAscii(j: Json)
    requires WellFormed(j)
    ensures Ascii(Canonical(j))
  {
    hide SortKeys, Print;
    SortKeysWellFormed(j);
    PrintAscii(SortKeys(j));
  }

  // ---- Python values ----

  /** What agent outputs are made of. Everything else makes json.dumps raise TypeError. */
  datatype PyValue =
    | PyNone
    | PyBool(b: bool)
    | PyInt(n: int)
    | PyFloat(repr: string)
    | PyStr(s: string)
    | PyList(items: seq<PyValue>)
    | PyDict(entries: seq<PyEntry>)
    | PyDateTime(iso: string)
    | PyUuid(text: string)
    | PyEnum(member: PyValue)
    | PyOther

  datatype PyEntry = PyEntry(key: string, value: PyValue)

  /** The document json.dumps writes, with _json_default applied; None is the TypeError. */
  function ToJson(v: PyValue): Option<Json>
    decreases v, 0
  {
    match v
    case PyNone => Some(Null)
    case PyBool(b) => Some(Bool(b))
    case PyInt(n) => Some(Int(n))
    case PyFloat(l) => Some(Float(l))
    case PyStr(s) => Some(Str(s))
    case PyDateTime(iso) => Some(Str(iso))
    case PyUuid(text) => Some(Str(text))
    case PyEnum(m) => ToJson(m)
    case PyOther => None
    case PyList(items) =>
      var r := ToJsonItems(items);
      if r.None? then None else Some(Arr(r.value))
    case PyDict(entries) =>
      var r := ToJsonFields(entries);
      if r.None? then None else Some(Obj(r.value))
  }

  function ToJsonItems(items: seq<PyValue>): (r: Option<seq<Json>>)
    ensures r.Some? ==> |r.value| == |items|
    decreases items, 1
  {
    if items == [] then Some([])
    else
      var head, rest := ToJson(items[0]), ToJsonItems(items[1..]);
      if head.None? || rest.None? then None else Some([head.value] + rest.value)
  }

  function ToJsonFields(entries: seq<PyEntry>): (r: Option<seq<Field>>)
    ensures r.Some? ==> |r.value| == |entries| && forall k | 0 <= k < |entries| :: r.value[k].key == entries[k].key
    decreases entries, 1
  {
    if entries == [] then Some([])
    else
      var head, rest := ToJson(entries[0].value), ToJsonFields(entries[1..]);
      if head.None? || rest.None? then None else Some([Field(entries[0].key, head.value)] + rest.value)
  }

  /** json.loads as a Python value. */
  function FromJson(j: Json): PyValue
    decreases j, 0
  {
    match j
    case Null => PyNone
    case Bool(b) => PyBool(b)
    case Int(n) => PyInt(n)
    case Float(l) => PyFloat(l)
    case Str(s) => PyStr(s)
    case Arr(items) => PyList(FromJsonItems(items))
    case Obj(fields) => PyDict(FromJsonFields(fields))
  }

  function FromJsonItems(items: seq<Json>): seq<PyValue>
    decreases items, 1
  {
    if items == [] then [] else [FromJson(items[0])] + FromJsonItems(items[1..])
  }

  function FromJsonFields(fields: seq<Field>): seq<PyEntry>
    decreases fields, 1
  {
    if fields == [] then []
    else [PyEntry(fields[0].key, FromJson(fields[0].value))] + FromJsonFields(fields[1..])
  }

  lemma {:induction false} FromJsonInverse(j: Json)
    ensures ToJson(FromJson(j)) == Some(j)
    decreases j, 0
  {
    match j {
      case Arr(items) => FromJsonItemsInverse(items);
      case Obj(fields) => FromJsonFieldsInverse(fields);
      case _ =>
    }
  }

  lemma {:induction false} FromJsonItemsInverse(items: seq<Json>)
    ensures ToJsonItems(FromJsonItems(items)) == Some(items)
    decreases items, 1
  {
    if items != [] {
      FromJsonInverse(items[0]);
      FromJsonItemsInverse(items[1..]);
      Uncons([FromJson(items[0])], FromJsonItems(items[1..]));
      assert ([FromJson(items[0])] + FromJsonItems(items[1..]))[1..] == FromJsonItems(items[1..]);
      assert items == [items[0]] + items[1..];
    }
  }

  lemma {:induction false} FromJsonFieldsInverse(fields: seq<Field>)
    ensures ToJsonFields(FromJsonFields(fields)) == Some(fields)
    decreases fields, 1
  {
    if fields != [] {
      var e := PyEntry(fields[0].key, FromJson(fields[0].value));
      FromJsonInverse(fields[0].value);
      FromJsonFieldsInverse(fields[1..]);
      assert ([e] + FromJsonFields(fields[1..]))[1..] == FromJsonFields(fields[1..]);
      assert fields == [fields[0]] + fields[1..] && Field(e.key, fields[0].value) == fields[0];
    }
  }

  /** A value json.dumps accepts: float texts as repr writes them, each dict key once. */
  ghost predicate Dumpable(v: PyValue) {
    ToJson(v).Some? && WellFormed(ToJson(v).value)
  }

  /** canonical_json; None is the TypeError. */
  function CanonicalJson(v: PyValue): Option<string> {
    var j := ToJson(v);
    if j.None? then None else Some(Canonical(j.value))
  }

  /** canonical_json(loads(dumps(v, sort_keys=True))) == canonical_json(v), also when v holds
      datetimes, UUIDs and enum members. */
  lemma ReloadedCanonicalJson(v: PyValue, st: Style)
    requires Dumpable(v) && GoodStyle(st)
    ensures var read := Loads(Print(SortKeys(ToJson(v).value), st));
            read.Done? && Dumpable(FromJson(read.value)) && CanonicalJson(FromJson(read.value)) == CanonicalJson(v)
  {
    hide SortKeys, Print, Loads, Canonical;
    var j := ToJson(v).value;
    CanonicalSurvivesArchive(j, st);
    FromJsonInverse(SortKeys(j));
  }

  /** _json_default tells datetimes apart by their text, UUIDs too, and writes an enum member
      as its value. */
  lemma DefaultsTellApart(a: string, b: string, v: PyValue)
    ensures CanonicalJson(PyDateTime(a)) == CanonicalJson(PyDateTime(b)) <==> a == b
    ensures CanonicalJson(PyUuid(a)) == CanonicalJson(PyUuid(b)) <==> a == b
    ensures CanonicalJson(PyDateTime(a)) == CanonicalJson(PyUuid(a)) == CanonicalJson(PyStr(a))
    ensures CanonicalJson(PyEnum(v)) == CanonicalJson(v)
  {
    hide Canonical;
    CanonicalExactly(Str(a), Str(b));
  }
}
