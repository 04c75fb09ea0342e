// Whatever text json.loads accepts, the document it returns is well formed: each key once in
// every object, and float texts that are floats.
module JsonReads {
  import opened Json
  import opened JsonProofs
  import opened Decimal
  import opened Results

  // ---- the text of a number is a number on its own ----

  lemma {:induction false} DigitRunTaken(t: string, m: nat)
    requires m <= |t|
    ensures DigitRun(t[..m]) == if DigitRun(t) <= m then DigitRun(t) else m
  {
    if m > 0 && Digit(t[0]) {
      assert t[..m][1..] == t[1..][..m - 1];
      DigitRunTaken(t[1..], m - 1);
    }
  }

  lemma IntegerTaken(t: string, m: nat)
    requires IntegerLength(t) <= m <= |t|
    ensures IntegerLength(t[..m]) == IntegerLength(t)
  {
    hide DigitRun;
    if m > 0 {
      var sign := if t[0] == '-' then 1 else 0;
      assert t[..m][sign..] == t[sign..][..m - sign];
      DigitRunTaken(t[sign..], m - sign);
    }
  }

  lemma FractionTaken(t: string, m: nat)
    requires FractionLength(t) <= m <= |t|
    ensures FractionLength(t[..m]) == FractionLength(t)
  {
    hide DigitRun;
    if m > 0 {
      assert t[..m][1..] == t[1..][..m - 1];
      DigitRunTaken(t[1..], m - 1);
    }
  }

  lemma ExponentTaken(t: string)
    ensures ExponentLength(t[..ExponentLength(t)]) == ExponentLength(t)
  {
    hide DigitRun;
    var m := ExponentLength(t);
    if m > 0 {
      var sign := if |t| > 1 && (t[1] == '-' || t[1] == '+') then 2 else 1;
      assert t[..m][sign..] == t[sign..][..m - sign];
      DigitRunTaken(t[sign..], m - sign);
    }
  }

  lemma NumberTaken(t: string)
    ensures NumberLength(t[..NumberLength(t)]) == NumberLength(t)
    ensures IntegerLength(t[..NumberLength(t)]) == IntegerLength(t)
  {
    hide IntegerLength, FractionLength, ExponentLength;
    var i := IntegerLength(t);
    var n := NumberLength(t);
    IntegerTaken(t, n);
    if i > 0 {
      var f := FractionLength(t[i..]);
      assert t[..n][i..] == t[i..][..n - i];
      FractionTaken(t[i..], n - i);
      assert t[..n][i + f..] == t[i + f..][..n - i - f];
      ExponentTaken(t[i + f..]);
    }
  }

  lemma ConstantTaken(t: string)
    requires NumberLength(t) == 0 && ConstantLength(t) > 0
    ensures FloatLexeme(t[..ConstantLength(t)])
  {
    hide FractionLength, ExponentLength, IntegerLength;
    var n := ConstantLength(t);
    IntegerTaken(t, n);
    NoIntegerNoNumber(t);
    NoIntegerNoNumber(t[..n]);
  }

  lemma NoIntegerNoNumber(t: string)
    ensures NumberLength(t) == 0 <==> IntegerLength(t) == 0
  {}

  lemma NumberWellFormed(t: string)
    requires ParseNumber(t).Done?
    ensures WellFormed(ParseNumber(t).value)
  {
    hide IntegerLength, NumberLength, ConstantLength, IntOf;
    if NumberLength(t) > 0 { NumberTaken(t); IntegerFirst(t); } else { ConstantTaken(t); }
  }

  lemma IntegerFirst(t: string)
    ensures IntegerLength(t) <= NumberLength(t)
  {}

  // ---- dict(pairs) ----

  lemma {:induction false} PutKeeps(fields: seq<Field>, f: Field)
    requires WellFormed(Obj(fields)) && WellFormed(f.value)
    ensures WellFormed(Obj(Put(fields, f))) && forall g <- Put(fields, f) :: g == f || g in fields
    decreases |fields|
  {
    if fields != [] && fields[0].key != f.key {
      PutKeeps(fields[1..], f);
      assert fields == [fields[0]] + fields[1..];
      assert forall g <- Put(fields[1..], f) :: g.key != fields[0].key;
    }
  }

  lemma {:induction false} DictIsWellFormed(pairs: seq<Field>)
    requires forall k | 0 <= k < |pairs| :: WellFormed(pairs[k].value)
    ensures WellFormed(Obj(DictOf(pairs)))
    decreases |pairs|
  {
    hide Put;
    if pairs != [] {
      DictIsWellFormed(pairs[..|pairs| - 1]);
      PutKeeps(DictOf(pairs[..|pairs| - 1]), pairs[|pairs| - 1]);
    }
  }

  // ---- documents ----

  lemma {:induction false} ValueWellFormed(t: string)
    requires ParseValue(t).Done?
    ensures WellFormed(ParseValue(t).value)
    decreases |t|, 0
  {
    hide ParseString, ParseItems, ParseFields, ParseNumber, DictOf;
    var u := SkipSpace(t[1..]);
    if t[0] == '{' {
      if !(u != [] && u[0] == '}') {
        FieldsWellFormed(u);
        DictIsWellFormed(ParseFields(u).value);
      }
    } else if t[0] == '[' {
      if !(u != [] && u[0] == ']') { ItemsWellFormed(u); }
    } else if ParseNumber(t).Done? {
      NumberWellFormed(t);
    }
  }

  lemma {:induction false} ItemsWellFormed(t: string)
    requires ParseItems(t).Done?
    ensures forall k | 0 <= k < |ParseItems(t).value| :: WellFormed(ParseItems(t).value[k])
    decreases |t|, 1
  {
    hide ParseValue, WellFormed;
    ValueWellFormed(t);
    var u := SkipSpace(ParseValue(t).rest);
    if u[0] == ',' { ItemsWellFormed(SkipSpace(u[1..])); }
  }

  lemma {:induction false} FieldsWellFormed(t: string)
    requires ParseFields(t).Done?
    ensures forall k | 0 <= k < |ParseFields(t).value| :: WellFormed(ParseFields(t).value[k].value)
    decreases |t|, 1
  {
    hide ParseValue, ParseString, WellFormed;
    var u := SkipSpace(ParseString(t[1..]).rest);
    ValueWellFormed(SkipSpace(u[1..]));
    var w := SkipSpace(ParseValue(SkipSpace(u[1..])).rest);
    if w[0] == ',' { FieldsWellFormed(SkipSpace(w[1..])); }
  }

  lemma LoadsWellFormed(t: string)
    requires Loads(t).Done?
    ensures WellFormed(Loads(t).value)
  {
    hide ParseValue, WellFormed;
    ValueWellFormed(SkipSpace(t));
  }

  lemma {:induction false} LookupWellFormed(fields: seq<Field>, key: string)
    requires WellFormed(Obj(fields)) && Lookup(fields, key).Some?
    ensures WellFormed(Lookup(fields, key).value)
  {
    if fields[0].key != key { LookupWellFormed(fields[1..], key); }
  }
}
