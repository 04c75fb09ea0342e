// retrieval/embedder.py: embedding a list of texts, empty ones as zero rows.
module Embedding {
  import opened Results
  import opened Text

  type Vector = seq<real>

  /** The sentence-transformers model. Each text is embedded on its own, whatever batch it is
      in. */
  datatype Model = Model(encode: string -> Vector, dim: nat)

  predicate EmptyText(t: string) { Strip(t) == [] }

  predicate AllEmpty(texts: seq<string>) {
    forall k | 0 <= k < |texts| :: EmptyText(texts[k])
  }

  function Zeros(n: nat): Vector { seq(n, _ => 0.0) }

  /** The row of one text. */
  function Embedded(m: Model, t: string): Vector { if EmptyText(t) then Zeros(m.dim) else m.encode(t) }

  function EmbeddedAll(m: Model, texts: seq<string>): seq<Vector> {
    seq(|texts|, k requires 0 <= k < |texts| => Embedded(m, texts[k]))
  }

  /** White-space-only text becomes a row of as many zeros as the model has dimensions, any
      other text its own embedding. */
  lemma RowsAre(m: Model, texts: seq<string>, k: nat)
    requires k < |texts|
    ensures AllSpace(texts[k]) ==>
              |EmbeddedAll(m, texts)[k]| == m.dim && forall j | 0 <= j < m.dim :: EmbeddedAll(m, texts)[k][j] == 0.0
    ensures !AllSpace(texts[k]) ==> EmbeddedAll(m, texts)[k] == m.encode(texts[k])
    ensures AllEmpty(texts) <==> forall t <- texts :: AllSpace(t)
  {
    hide Strip, IsSpace;
    forall t: string ensures EmptyText(t) <==> AllSpace(t) { StripsToNothing(t); }
    assert AllEmpty(texts) ==> forall t <- texts :: EmptyText(t);
  }

  /** The positions of the texts to encode are those of the non-empty texts, in order. */
  ghost predicate TextPositions(texts: seq<string>, upTo: nat, positions: seq<nat>) {
    && (forall k | 0 <= k < |positions| :: positions[k] < upTo && positions[k] < |texts| && !EmptyText(texts[positions[k]]))
    && (forall i, k | 0 <= i < k < |positions| :: positions[i] < positions[k])
    && (forall p: nat | p < upTo && p < |texts| && !EmptyText(texts[p]) :: p in positions)
  }

  lemma FullPositions(texts: seq<string>, positions: seq<nat>)
    requires TextPositions(texts, |texts|, positions) && |positions| >= |texts|
    ensures |positions| == |texts| && forall k | 0 <= k < |texts| :: positions[k] == k
  {
    AtLeast(positions, 0);
    if |positions| > 0 { AtLeast(positions, |positions| - 1); }
    forall k | 0 <= k < |texts| ensures positions[k] == k {
      AtLeast(positions, k);
      AtMost(positions, k, |texts|);
    }
  }

  lemma {:induction false} AtLeast(positions: seq<nat>, k: nat)
    requires forall i, j | 0 <= i < j < |positions| :: positions[i] < positions[j]
    ensures k < |positions| ==> positions[k] >= k
  {
    if k > 0 { AtLeast(positions, k - 1); }
  }

  lemma {:induction false} AtMost(positions: seq<nat>, k: nat, n: nat)
    requires forall i, j | 0 <= i < j < |positions| :: positions[i] < positions[j]
    requires (forall i | 0 <= i < |positions| :: positions[i] < n) && k < |positions|
    ensures positions[k] <= n - (|positions| - k)
    decreases |positions| - k
  {
    if k + 1 < |positions| { AtMost(positions, k + 1, n); }
  }

  /** batch_embed: keep the non-empty texts, encode them, and scatter the rows back over
      zeros when some text was left out. */
  method BatchEmbed(m: Model, texts: seq<string>) returns (r: Outcome<seq<Vector>>)
    ensures r == if AllEmpty(texts) then Raised(ValueError) else Ok(EmbeddedAll(m, texts))
  {
    hide EmptyText;
    if texts == [] { return Raised(ValueError); }
    var positions: seq<nat> := [];
    for i := 0 to |texts|
      invariant TextPositions(texts, i, positions)
    {
      if !EmptyText(texts[i]) { positions := positions + [i]; }
    }
    if positions == [] { return Raised(ValueError); }
    assert !EmptyText(texts[positions[0]]);
    var vectors := Encode(m, texts, positions);
    if |positions| < |texts| {
      vectors := Scatter(m, texts, positions, vectors);
    } else {
      FullPositions(texts, positions);
    }
    assert vectors == EmbeddedAll(m, texts);
    return Ok(vectors);
  }

  method Scatter(m: Model, texts: seq<string>, positions: seq<nat>, vectors: seq<Vector>) returns (rows: seq<Vector>)
    requires TextPositions(texts, |texts|, positions) && |vectors| == |positions|
    requires forall k | 0 <= k < |positions| :: vectors[k] == m.encode(texts[positions[k]])
    ensures rows == EmbeddedAll(m, texts)
  {
    hide EmptyText, Zeros;
    var result := new Vector[|texts|](_ => Zeros(m.dim));
    for k := 0 to |positions|
      invariant forall j | 0 <= j < k :: result[positions[j]] == vectors[j]
      invariant forall p: nat | p < |texts| && p !in positions[..k] :: result[p] == Zeros(m.dim)
    {
      assert positions[..k + 1] == positions[..k] + [positions[k]];
      result[positions[k]] := vectors[k];
    }
    assert positions[..|positions|] == positions;
    forall p: nat | p < |texts| ensures result[p] == Embedded(m, texts[p]) {
      if p in positions {
        var j :| 0 <= j < |positions| && positions[j] == p;
        assert result[positions[j]] == vectors[j];
      }
    }
    return result[..];
  }

  /** model.encode on the texts at these positions. */
  method Encode(m: Model, texts: seq<string>, positions: seq<nat>) returns (vectors: seq<Vector>)
    requires forall k | 0 <= k < |positions| :: positions[k] < |texts|
    ensures |vectors| == |positions|
    ensures forall k | 0 <= k < |positions| :: vectors[k] == m.encode(texts[positions[k]])
  {
    vectors := [];
    for k := 0 to |positions|
      invariant |vectors| == k
      invariant forall j | 0 <= j < k :: vectors[j] == m.encode(texts[positions[j]])
    {
      vectors := vectors + [m.encode(texts[positions[k]])];
    }
  }

  // ---- batches ----

  const BATCH_SIZE: nat := 256

  function BatchEnd(n: nat, start: nat): nat { if start + BATCH_SIZE < n then start + BATCH_SIZE else n }

  /** Some batch of the build has no text to embed. */
  ghost predicate SomeEmptyBatch(texts: seq<string>) {
    exists b: nat :: EmptyBatch(texts, b)
  }

  predicate EmptyBatch(texts: seq<string>, b: nat) {
    b * BATCH_SIZE < |texts| && AllEmpty(texts[b * BATCH_SIZE..BatchEnd(|texts|, b * BATCH_SIZE)])
  }

  /** Batches are the stretches of 256 texts, the last one possibly shorter. */
  lemma BatchesAre(texts: seq<string>, b: nat)
    ensures EmptyBatch(texts, b)
            <==> 256 * b < |texts| && forall k | 256 * b <= k < 256 * b + 256 && k < |texts| :: AllSpace(texts[k])
  {
    hide Strip, IsSpace;
    forall t: string ensures EmptyText(t) <==> AllSpace(t) { StripsToNothing(t); }
    if 256 * b < |texts| {
      var part := texts[256 * b..BatchEnd(|texts|, 256 * b)];
      assert forall k | 0 <= k < |part| :: part[k] == texts[256 * b + k];
      assert forall k | 256 * b <= k < 256 * b + |part| :: texts[k] == part[k - 256 * b];
    }
  }
}
