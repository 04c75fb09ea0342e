// IndexManager of retrieval/index_manager.py: building, checking, swapping and loading.
module IndexManager {
  import opened Embedding
  import opened IndexFiles
  import opened IndexSwap
  import opened Json
  import opened Results
  import opened Retriever

  datatype DirName = ActiveDir | StagingDir | BackupDir

  function DirOf(d: Dirs, name: DirName): Option<Content> {
    match name
    case ActiveDir => d.active
    case StagingDir => d.staging
    case BackupDir => d.backup
  }

  /** One query of the golden test set and the document its best hit must come from. */
  datatype Golden = Golden(query: string, expected: string)

  // ---- health check ----

  /** The document of the best hit; None when there is no hit or the query raises. */
  function TopResult(e: Engine, l: Loaded, query: string): Option<Json> {
    if EmptyText(query) then None
    else
      var results := QueryResults(e, l.idMap, e.search(l.index, e.model.encode(query), 1), 0.0);
      if results.Raised? || results.value == [] then None else Some(results.value[0].documentId)
  }

  function CountPassed(e: Engine, l: Loaded, tests: seq<Golden>): (n: nat)
    ensures n <= |tests|
  {
    if tests == [] then 0
    else
      var last := tests[|tests| - 1];
      CountPassed(e, l, tests[..|tests| - 1]) + if TopResult(e, l, last.query) == Some(Str(last.expected)) then 1 else 0
  }

  /** health_check with its default threshold of 0.9 on the staging directory. Without a test
      set it passes; a missing file fails it; an unreadable one raises. */
  function HealthOf(e: Engine, staging: Option<Content>, tests: Option<seq<Golden>>): Outcome<bool> {
    if tests.None? then Ok(true)
    else
      var read := ReadDir(staging);
      if read == Raised(FileNotFoundError) then Ok(false)
      else if read.Raised? then Raised(read.error)
      else Ok(|tests.value| > 0 && 10 * CountPassed(e, read.value, tests.value) >= 9 * |tests.value|)
  }

  /** The loop of build: batches of BATCH_SIZE, each embedded on its own, and the ID map
      filled entry by entry. It is what one pass over all chunks gives, and fails exactly when
      some batch has nothing to embed. */
  method EmbedInBatches(m: Model, chunks: seq<IndexedChunk>) returns (r: Outcome<(seq<Vector>, seq<Json>)>)
    ensures r == if SomeEmptyBatch(Texts(chunks)) then Raised(ValueError)
                 else Ok((EmbeddedAll(m, Texts(chunks)), Entries(chunks)))
    ensures r.Ok? ==> |r.value.0| == |chunks|
  {
    hide Embedded, Metadata, AllEmpty;
    var texts := Texts(chunks);
    var index: seq<Vector> := [];
    var idMap: map<nat, Json> := map[];
    var start, batch := 0, 0;
    while start < |texts|
      invariant start == batch * BATCH_SIZE && batch >= 0
      invariant index == EmbeddedAll(m, texts[..Least(start, |texts|)])
      invariant idMap == map k: nat | k < Least(start, |texts|) :: Metadata(chunks[k])
      invariant forall b: nat | b < batch :: !EmptyBatch(texts, b)
      decreases |texts| - start
    {
      var end := BatchEnd(|texts|, start);
      var vectors := BatchEmbed(m, texts[start..end]);
      assert vectors.Raised? <==> EmptyBatch(texts, batch);
      if vectors.Raised? { return Raised(vectors.error); }
      index := index + vectors.value;
      idMap := AddEntries(chunks, start, end, idMap);
      start := start + BATCH_SIZE;
      batch := batch + 1;
    }
    assert texts[..|texts|] == texts;
    var entries := seq(|chunks|, k requires 0 <= k < |chunks| => idMap[k]);
    assert entries == Entries(chunks);
    return Ok((index, entries));
  }

  /** The inner loop: one entry per chunk of the batch. */
  method AddEntries(chunks: seq<IndexedChunk>, start: nat, end: nat, before: map<nat, Json>)
    returns (idMap: map<nat, Json>)
    requires start <= end <= |chunks| && before == map k: nat | k < start :: Metadata(chunks[k])
    ensures idMap == map k: nat | k < end :: Metadata(chunks[k])
  {
    hide Metadata;
    idMap := before;
    for i := 0 to end - start
      invariant idMap == map k: nat | k < start + i :: Metadata(chunks[k])
    {
      idMap := idMap[start + i := Metadata(chunks[start + i])];
    }
  }

  class IndexManager {
    const engine: Engine
    const tests: Option<seq<Golden>>
    var dirs: Dirs
    var loaded: Option<Loaded>
    var loadedFrom: Option<DirName>

    constructor (e: Engine, golden: Option<seq<Golden>>, onDisk: Dirs)
      ensures engine == e && tests == golden && dirs == onDisk && loaded == None && loadedFrom == None
    {
      engine, tests, dirs, loaded, loadedFrom := e, golden, onDisk, None, None;
    }

    /** load: all of index, ID map and origin change, or, when anything raises, none. */
    method Load(name: DirName) returns (r: Outcome<()>)
      modifies this`loaded, this`loadedFrom
      ensures var read := ReadDir(DirOf(dirs, name));
              if read.Ok? then r == Ok(()) && loaded == Some(read.value) && loadedFrom == Some(name)
              else r == Raised(read.error) && loaded == old(loaded) && loadedFrom == old(loadedFrom)
    {
      hide IntKeys, Loads;
      var dir := DirOf(dirs, name);
      if dir.None? || dir.value.index.None? { return Raised(FileNotFoundError); }
      if dir.value.idMap.None? { return Raised(FileNotFoundError); }
      if dir.value.index.value.Unreadable? { return Raised(RuntimeError); }
      var newIndex := dir.value.index.value.rows;
      var rawMap := Loads(dir.value.idMap.value);
      if rawMap.Fail? { return Raised(ValueError); }
      if !rawMap.value.Obj? { return Raised(AttributeError); }
      var newIdMap := IntKeys(rawMap.value.fields);
      if newIdMap.None? { return Raised(ValueError); }
      loaded := Some(Loaded(newIndex, newIdMap.value));
      loadedFrom := Some(name);
      return Ok(());
    }

    /** build into staging. The files are written only after the last batch. */
    method Build(chunks: seq<IndexedChunk>) returns (r: Outcome<nat>)
      modifies this`dirs
      ensures var made := if old(dirs).staging.None? then Some(Content(None, None)) else old(dirs).staging;
              if chunks == [] then r == Raised(ValueError) && dirs == old(dirs)
              else if SomeEmptyBatch(Texts(chunks))
              then r == Raised(ValueError) && dirs == old(dirs).(staging := made)
              else r == Ok(|chunks|) && dirs == old(dirs).(staging := Some(BuiltDir(engine.model, chunks)))
    {
      hide EmbeddedAll, Entries, Texts, SomeEmptyBatch, IdMapText;
      if chunks == [] { return Raised(ValueError); }
      if dirs.staging.None? { dirs := dirs.(staging := Some(Content(None, None))); }
      var rows := EmbedInBatches(engine.model, chunks);
      if rows.Raised? { return Raised(rows.error); }
      var (index, entries) := rows.value;
      dirs := dirs.(staging := Some(Content(Some(Vectors(index)), Some(IdMapText(entries)))));
      return Ok(|index|);
    }

    /** health_check */
    method HealthCheck() returns (r: Outcome<bool>)
      ensures r == HealthOf(engine, dirs.staging, tests)
    {
      hide ReadDir, EmptyText, QueryResults;
      if tests.None? { return Ok(true); }
      var temp := new IndexManager(engine, tests, dirs);
      var read := temp.Load(StagingDir);
      if read == Raised(FileNotFoundError) { return Ok(false); }
      if read.Raised? { return Raised(read.error); }
      var passed := 0;
      var index := temp.loaded;
      for i := 0 to |tests.value|
        invariant passed == CountPassed(engine, index.value, tests.value[..i])
      {
        var item := tests.value[i];
        assert tests.value[..i + 1][..i] == tests.value[..i];
        var results := Query(engine, index, 0.0, item.query, 1);
        if results.Ok? && results.value != [] && results.value[0].documentId == Str(item.expected) {
          passed := passed + 1;
        }
      }
      assert tests.value[..|tests.value|] == tests.value;
      var total := |tests.value|;
      return Ok(total > 0 && 10 * passed >= 9 * total);
    }

    /** safe_swap. When the final load raises, the directories have been swapped all the same. */
    method SafeSwap(skipHealthCheck: bool) returns (r: Outcome<bool>)
      modifies this
      ensures var health := if skipHealthCheck then Ok(true) else HealthOf(engine, old(dirs).staging, tests);
              var read := ReadDir(old(dirs).staging);
              if !HasIndex(old(dirs).staging) then r == Ok(false) && dirs == old(dirs) && loaded == old(loaded)
              else if health != Ok(true) then r == health && dirs == old(dirs) && loaded == old(loaded)
              else
                && dirs == SwapOnce(old(dirs), true).0
                && (read.Ok? ==> r == Ok(true) && loaded == Some(read.value) && loadedFrom == Some(ActiveDir))
                && (read.Raised? ==> r == Raised(read.error) && loaded == old(loaded) && loadedFrom == old(loadedFrom))
    {
      hide ReadDir, HealthOf;
      if !HasIndex(dirs.staging) { return Ok(false); }
      if !skipHealthCheck {
        var passed := HealthCheck();
        if passed.Raised? { return passed; }
        if !passed.value { return Ok(false); }
      }
      if dirs.backup.Some? { dirs := dirs.(backup := None); }
      if dirs.active.Some? { dirs := dirs.(backup := dirs.active, active := None); }
      dirs := dirs.(active := dirs.staging, staging := None);
      var read := Load(ActiveDir);
      if read.Raised? { return Raised(read.error); }
      return Ok(true);
    }
  }

  /** A build that is swapped in is what queries then run on. */
  lemma SwapServesBuild(m: Model, chunks: seq<IndexedChunk>, before: Dirs)
    ensures var after := SwapOnce(before.(staging := Some(BuiltDir(m, chunks))), true);
            && after.1
            && ReadDir(after.0.active) == Ok(Loaded(EmbeddedAll(m, Texts(chunks)), IdMapOf(chunks)))
            && after.0.backup == before.active
  {
    hide ReadDir, Metadata, IdMapText;
    LoadedIsBuilt(m, chunks);
  }

  // ---- what a passed health check means ----

  /** What the search returns for the one best row. */
  function BestHits(e: Engine, chunks: seq<IndexedChunk>, query: string): seq<Hit> {
    e.search(EmbeddedAll(e.model, Texts(chunks)), e.model.encode(query), 1)
  }

  /** The query has words, and the chunk that scores best for it, at zero or more, comes from
      the expected document. */
  ghost predicate Finds(e: Engine, chunks: seq<IndexedChunk>, test: Golden) {
    !EmptyText(test.query) && exists id: nat :: FoundAt(e, chunks, test, id)
  }

  ghost predicate FoundAt(e: Engine, chunks: seq<IndexedChunk>, test: Golden, id: nat) {
    var query := e.model.encode(test.query);
    && id < |chunks| && chunks[id].chunk.source.documentId == test.expected
    && (exists hit: Hit :: hit in BestHits(e, chunks, test.query) && hit.id == id) && ScoreOf(e.model, chunks[id], query) >= 0.0
    && forall other: nat | other < |chunks| :: ScoreOf(e.model, chunks[other], query) <= ScoreOf(e.model, chunks[id], query)
  }

  ghost predicate SearchesBest(e: Engine, chunks: seq<IndexedChunk>, query: string) {
    IsTopK(EmbeddedAll(e.model, Texts(chunks)), e.model.encode(query), 1, BestHits(e, chunks, query))
  }

  lemma BestScore(e: Engine, chunks: seq<IndexedChunk>, query: string, other: nat)
    requires SearchesBest(e, chunks, query) && other < |chunks|
    ensures var best := BestHits(e, chunks, query)[0];
            && 0 <= best.id < |chunks| && best.score == ScoreOf(e.model, chunks[best.id], e.model.encode(query))
            && ScoreOf(e.model, chunks[other], e.model.encode(query)) <= best.score
  {
    hide Dot, Embedded;
    var hits := BestHits(e, chunks, query);
    if hits[0].id != other { assert !IsHit(hits, 1, other); }
  }

  lemma KeptOne(hits: seq<Hit>, threshold: real)
    requires |hits| == 1
    ensures KeptHits(hits, threshold) == if Kept(hits[0], threshold) then hits else []
  {
    hide Kept;
    KeptSnoc([], hits[0], threshold);
    assert [] + [hits[0]] == hits;
  }

  lemma OneResult(e: Engine, chunks: seq<IndexedChunk>, query: string)
    requires SearchesBest(e, chunks, query) && !EmptyText(query)
    ensures var best := BestHits(e, chunks, query)[0];
            && (Kept(best, 0.0) ==> 0 <= best.id < |chunks|)
            && TopResult(e, Loaded(EmbeddedAll(e.model, Texts(chunks)), IdMapOf(chunks)), query)
               == if Kept(best, 0.0) then Some(Str(chunks[best.id].chunk.source.documentId)) else None
  {
    hide EmptyText, Collect, KeptHits, Metadata, IdMapOf, Dot, Embedded;
    var hits := BestHits(e, chunks, query);
    KeptOne(hits, 0.0);
    CollectBuilt(e, chunks, KeptHits(hits, 0.0));
  }

  lemma TopResultIs(e: Engine, chunks: seq<IndexedChunk>, test: Golden)
    requires SearchesBest(e, chunks, test.query)
    ensures Finds(e, chunks, test)
            <==> TopResult(e, Loaded(EmbeddedAll(e.model, Texts(chunks)), IdMapOf(chunks)), test.query)
                 == Some(Str(test.expected))
  {
    hide EmptyText, ScoreOf, SearchesBest, BestHits, IdMapOf, TopResult;
    if !EmptyText(test.query) {
      OneResult(e, chunks, test.query);
      assert |BestHits(e, chunks, test.query)| == 1 by { OneHit(e, chunks, test.query); }
      var best := BestHits(e, chunks, test.query)[0];
      forall other: nat | other < |chunks|
        ensures 0 <= best.id < |chunks| && best.score == ScoreOf(e.model, chunks[best.id], e.model.encode(test.query))
        ensures ScoreOf(e.model, chunks[other], e.model.encode(test.query)) <= best.score
      {
        BestScore(e, chunks, test.query, other);
      }
      if Kept(best, 0.0) && chunks[best.id].chunk.source.documentId == test.expected {
        assert best in BestHits(e, chunks, test.query);
        assert FoundAt(e, chunks, test, best.id);
      }
    } else {
      NoTopResult(e, Loaded(EmbeddedAll(e.model, Texts(chunks)), IdMapOf(chunks)), test.query);
    }
  }

  lemma OneHit(e: Engine, chunks: seq<IndexedChunk>, query: string)
    requires SearchesBest(e, chunks, query)
    ensures |BestHits(e, chunks, query)| == 1
  {
    hide Dot;
  }

  lemma NoTopResult(e: Engine, l: Loaded, query: string)
    requires EmptyText(query)
    ensures TopResult(e, l, query) == None
  {
    hide EmptyText;
  }

  /** The golden queries among the first n that find their document. */
  ghost function Found(e: Engine, chunks: seq<IndexedChunk>, tests: seq<Golden>, n: nat): set<nat>
    requires n <= |tests|
  {
    set k: nat | k < n && Finds(e, chunks, tests[k])
  }

  lemma {:induction false} PassedAreFound(e: Engine, chunks: seq<IndexedChunk>, tests: seq<Golden>, n: nat)
    requires n <= |tests| && forall t <- tests :: SearchesBest(e, chunks, t.query)
    ensures CountPassed(e, Loaded(EmbeddedAll(e.model, Texts(chunks)), IdMapOf(chunks)), tests[..n])
            == |Found(e, chunks, tests, n)|
  {
    hide SearchesBest, TopResult, IdMapOf, Finds;
    if n == 0 {
      assert Found(e, chunks, tests, 0) == {};
    } else {
      PassedAreFound(e, chunks, tests, n - 1);
      assert tests[..n][..n - 1] == tests[..n - 1];
      assert tests[n - 1] in tests;
      TopResultIs(e, chunks, tests[n - 1]);
      var before := Found(e, chunks, tests, n - 1);
      assert Found(e, chunks, tests, n) == if Finds(e, chunks, tests[n - 1]) then before + {n - 1} else before;
    }
  }

  /** A built index passes its health check exactly when there are golden queries and at least
      nine in ten of them find their document; without a test set it always does. */
  lemma HealthyExactly(e: Engine, chunks: seq<IndexedChunk>, tests: seq<Golden>)
    requires forall t <- tests :: SearchesBest(e, chunks, t.query)
    ensures HealthOf(e, Some(BuiltDir(e.model, chunks)), Some(tests))
            == Ok(tests != [] && 10 * |Found(e, chunks, tests, |tests|)| >= 9 * |tests|)
    ensures HealthOf(e, Some(BuiltDir(e.model, chunks)), None) == Ok(true)
  {
    hide SearchesBest, CountPassed, IdMapOf, ReadDir, BuiltDir, Found, EmbeddedAll;
    LoadedIsBuilt(e.model, chunks);
    PassedAreFound(e, chunks, tests, |tests|);
    assert tests[..|tests|] == tests;
  }
}
