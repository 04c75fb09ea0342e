// The two files of an index directory: what IndexManager.build writes and load reads back.
module IndexFiles {
  import opened Chunker
  import opened Decimal
  import opened Embedding
  import opened Json
  import opened JsonProofs
  import opened Results
  import opened Text

  /** A chunk with the fields that depend on where it stands in the document. */
  datatype IndexedChunk = IndexedChunk(chunk: TextChunk, sectionHint: string, charStart: int, charEnd: int)

  /** to_metadata_dict: everything but the text. */
  function Metadata(c: IndexedChunk): Json {
    Obj([Field("chunk_index", Int(c.chunk.chunkIndex)),
         Field("source_document_id", Str(c.chunk.source.documentId)),
         Field("source_url", Str(c.chunk.source.url)),
         Field("section_hint", Str(c.sectionHint)),
         Field("char_start", Int(c.charStart)),
         Field("char_end", Int(c.charEnd)),
         Field("token_count", Int(c.chunk.tokenCount))])
  }

  function Texts(chunks: seq<IndexedChunk>): seq<string> {
    seq(|chunks|, k requires 0 <= k < |chunks| => chunks[k].chunk.text)
  }

  /** The ID map of these chunks, in insertion order. */
  function Entries(chunks: seq<IndexedChunk>): seq<Json> {
    seq(|chunks|, k requires 0 <= k < |chunks| => Metadata(chunks[k]))
  }

  function IdMapOf(chunks: seq<IndexedChunk>): map<int, Json> {
    map k: int | 0 <= k < |chunks| :: Metadata(chunks[k])
  }

  // ---- int keys as strings ----

  function KeyedFields(entries: seq<Json>): seq<Field> {
    seq(|entries|, k requires 0 <= k < |entries| => Field(Dec(k), entries[k]))
  }

  /** json.dump({str(k): v ...}): default separators, keys in insertion order. */
  function IdMapText(entries: seq<Json>): string { Print(Obj(KeyedFields(entries)), SPACED) }

  /** Digits with single underscores between them. */
  predicate UnderscoredDigits(s: string) {
    s != [] && Digit(s[0]) && (|s| == 1 || UnderscoredDigits(s[1..]) || (s[1] == '_' && UnderscoredDigits(s[2..])))
  }

  function WithoutUnderscores(s: string): string {
    if s == [] then [] else (if s[0] == '_' then [] else [s[0]]) + WithoutUnderscores(s[1..])
  }

  lemma {:induction false} UnderscoresGone(s: string)
    requires s == [] || UnderscoredDigits(s)
    ensures AllDigits(WithoutUnderscores(s))
    decreases |s|
  {
    if |s| > 1 && s[1] == '_' && UnderscoredDigits(s[2..]) {
      UnderscoresGone(s[2..]);
      assert s[1..][1..] == s[2..];
    } else if |s| > 1 {
      UnderscoresGone(s[1..]);
    }
  }

  /** int(k) on ASCII text: surrounding white space, a sign, digits with underscores. */
  function IntOfKey(k: string): Option<int> {
    var s := Strip(k);
    if s == [] then None
    else
      var body := if s[0] == '-' || s[0] == '+' then s[1..] else s;
      if !UnderscoredDigits(body) then None
      else
        var n: int := DigitsValue(body);
        Some(if s[0] == '-' then -n else n)
  }

  function DigitsValue(body: string): nat
    requires UnderscoredDigits(body)
  {
    UnderscoresGone(body);
    Value(WithoutUnderscores(body))
  }

  lemma {:induction false} PlainDigits(s: string)
    requires AllDigits(s)
    ensures WithoutUnderscores(s) == s && (s != [] ==> UnderscoredDigits(s))
  {
    if s != [] {
      PlainDigits(s[1..]);
      assert s == [s[0]] + s[1..];
    }
  }

  /** int(str(k)) == k */
  lemma KeyRoundTrip(k: nat)
    ensures IntOfKey(Dec(k)) == Some(k)
  {
    PlainDigits(Dec(k));
    ValueOfDec(k);
    assert !IsSpace(Dec(k)[0]) && !IsSpace(Dec(k)[|Dec(k)| - 1]);
  }

  /** A sign in front is read too. */
  lemma SignedNumerals(n: int, k: nat)
    ensures IntOfKey(IntText(n)) == Some(n) && IntOfKey(['+'] + Dec(k)) == Some(k)
  {
    hide UnderscoredDigits, DigitsValue;
    KeyRoundTrip(if n >= 0 then n else 0);
    SignThenDigits('+', k);
    if n < 0 { SignThenDigits('-', -n); }
  }

  lemma SignThenDigits(sign: char, k: nat)
    requires sign == '+' || sign == '-'
    ensures IntOfKey([sign] + Dec(k)) == if sign == '-' then Some(0 - k) else Some(0 + k)
  {
    hide Strip, Dec, Value, UnderscoredDigits, WithoutUnderscores;
    var s := [sign] + Dec(k);
    PlainDigits(Dec(k));
    ValueOfDec(k);
    assert s[1..] == Dec(k) && s[|s| - 1] == Dec(k)[|Dec(k)| - 1];
    NotStripped(s);
  }

  lemma NotStripped(s: string)
    requires s != [] && !IsSpace(s[0]) && !IsSpace(s[|s| - 1])
    ensures Strip(s) == s
  {}

  /** {int(k): v for k, v in raw.items()}; None is the ValueError of int. */
  function IntKeys(fields: seq<Field>): Option<map<int, Json>> {
    if fields == [] then Some(map[])
    else
      var last := fields[|fields| - 1];
      var rest, key := IntKeys(fields[..|fields| - 1]), IntOfKey(last.key);
      if rest.None? || key.None? then None else Some(rest.value[key.value := last.value])
  }

  function Numbered(entries: seq<Json>): map<int, Json> {
    map k: int | 0 <= k < |entries| :: entries[k]
  }

  lemma IntKeysSnoc(fields: seq<Field>, f: Field)
    requires IntKeys(fields).Some? && IntOfKey(f.key).Some?
    ensures IntKeys(fields + [f]) == Some(IntKeys(fields).value[IntOfKey(f.key).value := f.value])
  {
    hide IntOfKey;
    assert (fields + [f])[..|fields|] == fields;
  }

  lemma {:induction false} IntKeysOfFields(entries: seq<Json>)
    ensures IntKeys(KeyedFields(entries)) == Some(Numbered(entries))
  {
    hide IntKeys, IntOfKey, Dec;
    if entries == [] {
      NoKeys();
      assert Numbered(entries) == map[];
      assert KeyedFields(entries) == [];
    } else {
      var n := |entries| - 1;
      IntKeysOfFields(entries[..n]);
      KeyRoundTrip(n);
      assert KeyedFields(entries) == KeyedFields(entries[..n]) + [Field(Dec(n), entries[n])];
      IntKeysSnoc(KeyedFields(entries[..n]), Field(Dec(n), entries[n]));
      assert Numbered(entries) == Numbered(entries[..n])[n := entries[n]];
    }
  }

  lemma NoKeys()
    ensures IntKeys([]) == Some(map[])
  {}

  // ---- reading ----

  /** The bytes of an index file, as faiss reads them. */
  datatype IndexFile = Vectors(rows: seq<Vector>) | Unreadable

  datatype Content = Content(index: Option<IndexFile>, idMap: Option<string>)

  datatype Loaded = Loaded(index: seq<Vector>, idMap: map<int, Json>)

  /** What load makes of a directory; dir is None when it does not exist. */
  function ReadDir(dir: Option<Content>): Outcome<Loaded> {
    if dir.None? || dir.value.index.None? || dir.value.idMap.None? then Raised(FileNotFoundError)
    else if dir.value.index.value.Unreadable? then Raised(RuntimeError)
    else
      var parsed := Loads(dir.value.idMap.value);
      if parsed.Fail? then Raised(ValueError)
      else if !parsed.value.Obj? then Raised(AttributeError)
      else
        var ids := IntKeys(parsed.value.fields);
        if ids.None? then Raised(ValueError) else Ok(Loaded(dir.value.index.value.rows, ids.value))
  }

  /** The directory build leaves behind. */
  function BuiltDir(m: Model, chunks: seq<IndexedChunk>): Content {
    Content(Some(Vectors(EmbeddedAll(m, Texts(chunks)))), Some(IdMapText(Entries(chunks))))
  }

  lemma MetadataWellFormed(c: IndexedChunk)
    ensures WellFormed(Metadata(c))
  {
  }

  lemma KeyedFieldsWellFormed(entries: seq<Json>)
    requires forall e <- entries :: WellFormed(e)
    ensures WellFormed(Obj(KeyedFields(entries)))
  {
    forall i, k | 0 <= i < k < |entries| ensures Dec(i) != Dec(k) {
      if Dec(i) == Dec(k) { DecInjective(i, k); }
    }
  }

  /** Loading what was built gives back exactly the vectors and the ID map: vector k is the
      embedding of chunk k, and the ID map is [0, n) with the metadata of chunk k at k. */
  lemma LoadedIsBuilt(m: Model, chunks: seq<IndexedChunk>)
    ensures ReadDir(Some(BuiltDir(m, chunks))) == Ok(Loaded(EmbeddedAll(m, Texts(chunks)), IdMapOf(chunks)))
  {
    hide Metadata, Loads, Print, IntKeys, KeyedFields, Embedded;
    var entries := Entries(chunks);
    forall e <- entries ensures WellFormed(e) {
      var k :| 0 <= k < |entries| && entries[k] == e;
      MetadataWellFormed(chunks[k]);
    }
    KeyedFieldsWellFormed(entries);
    SourceStylesAreGood();
    LoadsPrinted(Obj(KeyedFields(entries)), SPACED);
    IntKeysOfFields(entries);
    assert Numbered(entries) == IdMapOf(chunks);
  }
}
