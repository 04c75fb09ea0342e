// FAISSRetriever.query of retrieval/retriever.py, over an exact inner-product search.
module Retriever {
  import opened Embedding
  import opened IndexFiles
  import opened Json
  import opened JsonProofs
  import opened Results

  function Dot(a: Vector, b: Vector): real
    decreases |a|
  {
    if a == [] || b == [] then 0.0 else a[0] * b[0] + Dot(a[1..], b[1..])
  }

  /** The inner product, entry by entry. */
  lemma {:induction false} DotIsSum(a: Vector, b: Vector, c: Vector, d: Vector, x: real, y: real)
    requires |a| == |b|
    ensures Dot(a + c, b + d) == Dot(a, b) + Dot(c, d) && Dot([x], [y]) == x * y
    decreases |a|
  {
    assert Dot([x], [y]) == x * y + Dot([x][1..], [y][1..]);
    if a == [] {
      assert a + c == c && b + d == d;
    } else {
      assert (a + c)[1..] == a[1..] + c && (b + d)[1..] == b[1..] + d;
      DotIsSum(a[1..], b[1..], c, d, x, y);
    }
  }

  datatype Hit = Hit(score: real, id: int)

  function Least(a: nat, b: nat): (m: nat)
    ensures m <= a && m <= b && (m == a || m == b)
  {
    if a < b then a else b
  }

  /** id is among the first n hits. */
  ghost predicate IsHit(hits: seq<Hit>, n: nat, id: int) {
    exists i :: 0 <= i < n && i < |hits| && hits[i].id == id
  }

  /** What a flat index returns: the k best rows with their scores, best first, padded with
      id -1 when there are fewer rows. */
  ghost predicate IsTopK(index: seq<Vector>, query: Vector, k: nat, hits: seq<Hit>) {
    var n := Least(k, |index|);
    && |hits| == k
    && (forall j | 0 <= j < n :: 0 <= hits[j].id < |index| && hits[j].score == Dot(index[hits[j].id], query))
    && (forall i, j | 0 <= i < j < n :: Before(hits[i], hits[j]))
    && (forall id: nat | id < |index| && !IsHit(hits, n, id) ::
          k < |index| && forall j | 0 <= j < n :: Dot(index[id], query) <= hits[j].score)
    && (forall j | n <= j < k :: hits[j].id == -1)
  }

  predicate Before(a: Hit, b: Hit) { a.id != b.id && a.score >= b.score }

  /** What is stored under a key need not be a string: it is handed on as it is. */
  datatype RetrievedChunk = RetrievedChunk(text: Json, score: real, documentId: Json, url: Json, sectionHint: Json,
                                           chunkIndex: int, tokenCount: int, faissId: int)

  /** The model, the search, and int() of a float given by its lexeme. */
  datatype Engine = Engine(model: Model, search: (seq<Vector>, Vector, nat) -> seq<Hit>, truncate: string -> Outcome<int>)

  // ---- metadata.get ----

  function GetOr(o: seq<Field>, key: string, default: Json): Json {
    if Lookup(o, key).Some? then Lookup(o, key).value else default
  }

  /** int(v) of a JSON value. */
  function IntOf(e: Engine, v: Json): Outcome<int> {
    match v
    case Int(n) => Ok(n)
    case Bool(b) => Ok(if b then 1 else 0)
    case Float(l) => e.truncate(l)
    case Str(s) => if IntOfKey(s).None? then Raised(ValueError) else Ok(IntOfKey(s).value)
    case _ => Raised(TypeError)
  }

  /** int() of what json wrote: numbers, booleans and numerals are read, null, lists and
      objects raise. */
  lemma IntOfMeans(e: Engine, n: int, v: Json)
    ensures IntOf(e, Int(n)) == IntOf(e, Str(IntText(n))) == Ok(n)
    ensures IntOf(e, Bool(false)) == Ok(0) && IntOf(e, Bool(true)) == Ok(1)
    ensures IntOf(e, v) == Raised(TypeError) <== v.Null? || v.Arr? || v.Obj?
    ensures IntOf(e, Str("")) == Raised(ValueError)
  {
    hide IntOfKey, IntText;
    SignedNumerals(n, 0);
    NoNumeral();
  }

  lemma NoNumeral()
    ensures IntOfKey("") == None
  {}

  /** The result for one hit: .get raises on what is no dict, int on what is no number. */
  function Retrieved(e: Engine, metadata: Json, hit: Hit): Outcome<RetrievedChunk> {
    if !metadata.Obj? then Raised(AttributeError)
    else
      var o := metadata.fields;
      var chunkIndex := IntOf(e, GetOr(o, "chunk_index", Int(0)));
      if chunkIndex.Raised? then Raised(chunkIndex.error)
      else
        var tokenCount := IntOf(e, GetOr(o, "token_count", Int(0)));
        if tokenCount.Raised? then Raised(tokenCount.error)
        else
          Ok(RetrievedChunk(GetOr(o, "text", Str("")), hit.score, GetOr(o, "source_document_id", Str("unknown")),
                            GetOr(o, "source_url", Str("")), GetOr(o, "section_hint", Str("")),
                            chunkIndex.value, tokenCount.value, hit.id))
  }

  /** id_map.get(id, {}) */
  function EntryOf(idMap: map<int, Json>, id: int): Json { if id in idMap then idMap[id] else Obj([]) }

  /** A hit that the ID map does not know gets the defaults. */
  lemma UnknownChunk(e: Engine, idMap: map<int, Json>, hit: Hit)
    requires hit.id !in idMap
    ensures Retrieved(e, EntryOf(idMap, hit.id), hit)
            == Ok(RetrievedChunk(Str(""), hit.score, Str("unknown"), Str(""), Str(""), 0, 0, hit.id))
  {}

  predicate Kept(hit: Hit, threshold: real) { hit.id != -1 && hit.score >= threshold }

  /** The hits that become results. */
  function KeptHits(hits: seq<Hit>, threshold: real): seq<Hit> {
    if hits == [] then []
    else KeptHits(hits[..|hits| - 1], threshold)
         + if Kept(hits[|hits| - 1], threshold) then [hits[|hits| - 1]] else []
  }

  /** Each hit with its metadata, up to the first that raises. */
  function Collect(e: Engine, idMap: map<int, Json>, hits: seq<Hit>): Outcome<seq<RetrievedChunk>> {
    if hits == [] then Ok([])
    else
      var before, last := Collect(e, idMap, hits[..|hits| - 1]), hits[|hits| - 1];
      if before.Raised? then before
      else
        var r := Retrieved(e, EntryOf(idMap, last.id), last);
        if r.Raised? then Raised(r.error) else Ok(before.value + [r.value])
  }

  /** The results of a query. */
  function QueryResults(e: Engine, idMap: map<int, Json>, hits: seq<Hit>, threshold: real): Outcome<seq<RetrievedChunk>> {
    Collect(e, idMap, KeptHits(hits, threshold))
  }

  lemma KeptSnoc(hits: seq<Hit>, h: Hit, threshold: real)
    ensures KeptHits(hits + [h], threshold)
            == if Kept(h, threshold) then KeptHits(hits, threshold) + [h] else KeptHits(hits, threshold)
  {
    hide Kept;
    assert (hits + [h])[..|hits|] == hits;
    assert KeptHits(hits, threshold) + [] == KeptHits(hits, threshold);
  }

  lemma CollectSnoc(e: Engine, idMap: map<int, Json>, hits: seq<Hit>, h: Hit)
    ensures var before, r := Collect(e, idMap, hits), Retrieved(e, EntryOf(idMap, h.id), h);
            Collect(e, idMap, hits + [h])
            == if before.Raised? then before
               else if r.Raised? then Raised(r.error) else Ok(before.value + [r.value])
  {
    hide Retrieved;
    assert (hits + [h])[..|hits|] == hits;
  }

  lemma NextHit(e: Engine, idMap: map<int, Json>, hits: seq<Hit>, threshold: real, i: nat)
    requires i < |hits|
    ensures var before := QueryResults(e, idMap, hits[..i], threshold);
            var r := Retrieved(e, EntryOf(idMap, hits[i].id), hits[i]);
            QueryResults(e, idMap, hits[..i + 1], threshold)
            == if before.Raised? || !Kept(hits[i], threshold) then before
               else if r.Raised? then Raised(r.error) else Ok(before.value + [r.value])
  {
    hide Retrieved, Kept, KeptHits, Collect;
    assert hits[..i + 1] == hits[..i] + [hits[i]];
    KeptSnoc(hits[..i], hits[i], threshold);
    CollectSnoc(e, idMap, KeptHits(hits[..i], threshold), hits[i]);
  }

  /** Once a hit raises, the query does. */
  lemma {:induction false} RaisedStays(e: Engine, idMap: map<int, Json>, hits: seq<Hit>, threshold: real, i: nat)
    requires i <= |hits| && QueryResults(e, idMap, hits[..i], threshold).Raised?
    ensures QueryResults(e, idMap, hits, threshold) == QueryResults(e, idMap, hits[..i], threshold)
    decreases |hits| - i
  {
    hide Retrieved, Kept, QueryResults;
    if i == |hits| {
      assert hits[..i] == hits;
    } else {
      NextHit(e, idMap, hits, threshold, i);
      RaisedStays(e, idMap, hits, threshold, i + 1);
    }
  }

  /** query. The index is loaded when it is Some. */
  method Query(e: Engine, loaded: Option<Loaded>, threshold: real, text: string, topK: nat)
    returns (r: Outcome<seq<RetrievedChunk>>)
    ensures r == if EmptyText(text) then Raised(ValueError)
                 else if loaded.None? then Raised(RuntimeError)
                 else QueryResults(e, loaded.value.idMap, e.search(loaded.value.index, e.model.encode(text), topK), threshold)
  {
    hide EmptyText, Retrieved, QueryResults;
    if EmptyText(text) { return Raised(ValueError); }
    if loaded.None? { return Raised(RuntimeError); }
    var idMap := loaded.value.idMap;
    var hits := e.search(loaded.value.index, e.model.encode(text), topK);
    var results: seq<RetrievedChunk> := [];
    NoHits(e, idMap, threshold);
    for i := 0 to |hits|
      invariant QueryResults(e, idMap, hits[..i], threshold) == Ok(results)
    {
      NextHit(e, idMap, hits, threshold, i);
      if hits[i].id == -1 { continue; }
      if hits[i].score < threshold { continue; }
      var metadata := EntryOf(idMap, hits[i].id);
      var chunk := Retrieved(e, metadata, hits[i]);
      if chunk.Raised? {
        RaisedStays(e, idMap, hits, threshold, i + 1);
        return Raised(chunk.error);
      }
      results := results + [chunk.value];
    }
    assert hits[..|hits|] == hits;
    return Ok(results);
  }

  lemma NoHits(e: Engine, idMap: map<int, Json>, threshold: real)
    ensures QueryResults(e, idMap, [], threshold) == Ok([])
  {}

  // ---- what a result says about its chunk ----

  /** The result that stands for chunk id. */
  function ResultFor(c: IndexedChunk, score: real, id: int): RetrievedChunk {
    RetrievedChunk(Str(""), score, Str(c.chunk.source.documentId), Str(c.chunk.source.url), Str(c.sectionHint),
                   c.chunk.chunkIndex, c.chunk.tokenCount, id)
  }

  /** Retrieved text is always empty, because the stored metadata has none. */
  lemma RetrievedMetadata(e: Engine, c: IndexedChunk, hit: Hit)
    ensures Retrieved(e, Metadata(c), hit) == Ok(ResultFor(c, hit.score, hit.id))
  {
    var fields := Metadata(c).fields;
    hide Lookup, DistinctKeys, Retrieved, ResultFor;
    LookupMember(fields, fields[0]);
    LookupMember(fields, fields[1]);
    LookupMember(fields, fields[2]);
    LookupMember(fields, fields[3]);
    LookupMember(fields, fields[6]);
    NoText(fields);
  }

  lemma NoText(fields: seq<Field>)
    requires |fields| == 7
    requires fields[0].key == "chunk_index" && fields[1].key == "source_document_id" && fields[2].key == "source_url"
    requires fields[3].key == "section_hint" && fields[4].key == "char_start" && fields[5].key == "char_end"
    requires fields[6].key == "token_count"
    ensures Lookup(fields, "text") == None
  {
    assert |fields[0].key| == 11 == |fields[6].key| && |fields[1].key| == 18 && |fields[2].key| == 10 == |fields[4].key|;
    assert |fields[3].key| == 12 && |fields[5].key| == 8;
    forall k | 0 <= k < 7 ensures fields[k].key != "text" {}
    NotThere(fields, "text");
  }

  lemma {:induction false} NotThere(fields: seq<Field>, key: string)
    requires forall k | 0 <= k < |fields| :: fields[k].key != key
    ensures Lookup(fields, key) == None
  {
    if fields != [] { NotThere(fields[1..], key); }
  }

  lemma {:induction false} KeptMembers(hits: seq<Hit>, threshold: real)
    ensures |KeptHits(hits, threshold)| <= |hits|
    ensures forall h :: h in KeptHits(hits, threshold) <==> h in hits && Kept(h, threshold)
  {
    hide Kept;
    if hits != [] {
      KeptMembers(hits[..|hits| - 1], threshold);
      assert hits == hits[..|hits| - 1] + [hits[|hits| - 1]];
    }
  }

  lemma {:induction false} KeptInOrder(hits: seq<Hit>, threshold: real)
    requires forall i, j | 0 <= i < j < |hits| && Kept(hits[i], threshold) && Kept(hits[j], threshold) ::
               Before(hits[i], hits[j])
    ensures forall i, j | 0 <= i < j < |KeptHits(hits, threshold)| ::
               Before(KeptHits(hits, threshold)[i], KeptHits(hits, threshold)[j])
  {
    hide Kept, Before;
    if hits != [] {
      var front := hits[..|hits| - 1];
      KeptInOrder(front, threshold);
      KeptMembers(front, threshold);
      var kept := KeptHits(front, threshold);
      if Kept(hits[|hits| - 1], threshold) {
        forall i | 0 <= i < |kept| ensures Before(kept[i], hits[|hits| - 1]) {
          assert kept[i] in front;
          var h :| 0 <= h < |front| && front[h] == kept[i];
          assert hits[h] == kept[i];
        }
      }
    }
  }

  ghost function ScoreOf(m: Model, c: IndexedChunk, query: Vector): real { Dot(Embedded(m, c.chunk.text), query) }

  lemma KeptHitsAreChunks(m: Model, chunks: seq<IndexedChunk>, query: Vector, k: nat, hits: seq<Hit>, threshold: real)
    requires IsTopK(EmbeddedAll(m, Texts(chunks)), query, k, hits)
    ensures var kept := KeptHits(hits, threshold);
            && |kept| <= k
            && (forall j | 0 <= j < |kept| :: 0 <= kept[j].id < |chunks| && kept[j].score >= threshold
                                              && kept[j].score == ScoreOf(m, chunks[kept[j].id], query))
            && (forall i, j | 0 <= i < j < |kept| :: Before(kept[i], kept[j]))
  {
    hide Embedded, Dot, KeptHits;
    var kept := KeptHits(hits, threshold);
    KeptMembers(hits, threshold);
    KeptInOrder(hits, threshold);
    forall j | 0 <= j < |kept|
      ensures 0 <= kept[j].id < |chunks| && kept[j].score >= threshold
      ensures kept[j].score == ScoreOf(m, chunks[kept[j].id], query)
    {
      assert kept[j] in kept;
      var h :| 0 <= h < |hits| && hits[h] == kept[j];
      assert h < Least(k, |chunks|);
    }
  }

  lemma MissedScores(m: Model, chunks: seq<IndexedChunk>, query: Vector, k: nat, hits: seq<Hit>, threshold: real,
                     id: nat)
    requires IsTopK(EmbeddedAll(m, Texts(chunks)), query, k, hits) && id < |chunks|
    requires forall h <- KeptHits(hits, threshold) :: h.id != id
    ensures var score := ScoreOf(m, chunks[id], query);
            score < threshold || (k < |chunks| && forall j | 0 <= j < k :: score <= hits[j].score)
  {
    hide Embedded, Dot, KeptHits;
    KeptMembers(hits, threshold);
    var n := Least(k, |chunks|);
    if IsHit(hits, n, id) {
      var i :| 0 <= i < n && hits[i].id == id;
      assert hits[i] in hits && !Kept(hits[i], threshold);
    }
  }

  lemma {:induction false} CollectBuilt(e: Engine, chunks: seq<IndexedChunk>, hits: seq<Hit>)
    requires forall j | 0 <= j < |hits| :: 0 <= hits[j].id < |chunks|
    ensures var r := Collect(e, IdMapOf(chunks), hits);
            && r.Ok? && |r.value| == |hits|
            && forall j | 0 <= j < |hits| :: r.value[j] == ResultFor(chunks[hits[j].id], hits[j].score, hits[j].id)
  {
    hide Retrieved, Metadata, ResultFor;
    if hits != [] {
      var last := hits[|hits| - 1];
      CollectBuilt(e, chunks, hits[..|hits| - 1]);
      RetrievedMetadata(e, chunks[last.id], last);
    }
  }

  /** Over an index built from chunks: no query raises, every result carries the metadata of
      the chunk whose vector scored it, with that score, and results are distinct and best
      first. */
  lemma ResultsAgreeWithChunks(e: Engine, chunks: seq<IndexedChunk>, query: Vector, k: nat, hits: seq<Hit>,
                               threshold: real)
    requires IsTopK(EmbeddedAll(e.model, Texts(chunks)), query, k, hits)
    ensures QueryResults(e, IdMapOf(chunks), hits, threshold).Ok?
    ensures var results := QueryResults(e, IdMapOf(chunks), hits, threshold).value;
            && |results| <= k
            && (forall j | 0 <= j < |results| ::
                  var id := results[j].faissId;
                  0 <= id < |chunks| && results[j].score >= threshold
                  && results[j] == ResultFor(chunks[id], ScoreOf(e.model, chunks[id], query), id))
            && (forall i, j | 0 <= i < j < |results| ::
                  results[i].faissId != results[j].faissId && results[i].score >= results[j].score)
  {
    hide KeptHits, Collect, IsTopK, ScoreOf, IdMapOf;
    var kept := KeptHits(hits, threshold);
    KeptHitsAreChunks(e.model, chunks, query, k, hits, threshold);
    CollectBuilt(e, chunks, kept);
    assert forall i, j | 0 <= i < j < |kept| :: Before(kept[i], kept[j]);
  }

  /** A chunk that is not among the results scores below the threshold, or no better than any
      of the top_k hits. */
  lemma BestChunksReturned(e: Engine, chunks: seq<IndexedChunk>, query: Vector, k: nat, hits: seq<Hit>,
                           threshold: real, id: nat)
    requires IsTopK(EmbeddedAll(e.model, Texts(chunks)), query, k, hits) && id < |chunks|
    requires var r := QueryResults(e, IdMapOf(chunks), hits, threshold);
             r.Ok? && forall c <- r.value :: c.faissId != id
    ensures var score := ScoreOf(e.model, chunks[id], query);
            score < threshold || (k < |chunks| && forall j | 0 <= j < k :: score <= hits[j].score)
  {
    hide KeptHits, Collect, ScoreOf, IdMapOf;
    var kept := KeptHits(hits, threshold);
    KeptHitsAreChunks(e.model, chunks, query, k, hits, threshold);
    CollectBuilt(e, chunks, kept);
    var results := QueryResults(e, IdMapOf(chunks), hits, threshold).value;
    forall h <- kept ensures h.id != id {
      var j :| 0 <= j < |kept| && kept[j] == h;
      assert results[j] in results && results[j].faissId == h.id;
    }
    MissedScores(e.model, chunks, query, k, hits, threshold, id);
  }
}
