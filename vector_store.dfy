/** The bookkeeping of the in-memory vector store (eduweave/vector_store.py):
    batching the texts for embedding, the fields a build sets, readiness, and
    how a nearest-neighbour answer is mapped back to text hits. The embedder
    and the FAISS index are abstract: an embedder is a function from a text
    to its vector, and a search is a function from an index, a query vector
    and k to the (index, distance) pairs FAISS reports. */
module VectorStore {
  import opened Common

  /** An embedding; its entries stand for float32 values. */
  type Vector = seq<int>

  /** One (index, distance) pair of a FAISS answer. FAISS pads missing
      neighbours with the index -1. Distances are abstract. */
  datatype Neighbor = Neighbor(index: int, distance: int)

  /** A flat L2 index: its dimension and the vectors added to it, in order. */
  datatype FlatIndex = FlatIndex(dimension: nat, vectors: seq<Vector>)

  /** A search hit: the chunk text, its metadata and the reported distance. */
  datatype Hit = Hit(text: string, metadata: Metadata, distance: int)

  datatype StoreError =
    | NoTexts        // ValueError: build called without texts
    | BadBatchSize   // ValueError from range() or np.vstack when batch_size <= 0
    | NotBuilt       // RuntimeError: search before a build
    | OutOfRange     // IndexError from a list lookup

  /** The dataclass default batch_size. */
  const DefaultBatchSize: int := 32

  // ---------------------------------------------------------------------
  // Batching and embedding
  // ---------------------------------------------------------------------

  /** `_embed_batch`: one vector per text, in order. */
  function EmbedAll(embed: string -> Vector, texts: seq<string>): (m: seq<Vector>)
    ensures |m| == |texts|
    ensures forall i :: 0 <= i < |texts| ==> m[i] == embed(texts[i])
  {
    seq(|texts|, i requires 0 <= i < |texts| => embed(texts[i]))
  }

  /** The slices `texts[start : start + size]` for start in
      `range(from, len(texts), size)`. */
  function BatchesFrom(texts: seq<string>, size: nat, from: nat): seq<seq<string>>
    requires size > 0
    decreases |texts| - from
  {
    if from >= |texts| then []
    else [texts[from..Min(from + size, |texts|)]] + BatchesFrom(texts, size, from + size)
  }

  /** Concatenation of a list of lists (np.vstack of the batch matrices, and
      the reading of a batch list as the texts behind it). */
  function Flatten<T>(parts: seq<seq<T>>): (r: seq<T>)
    ensures parts == [] ==> r == []
  {
    if parts == [] then [] else parts[0] + Flatten(parts[1..])
  }

  lemma {:induction false} FlattenAppend<T>(a: seq<seq<T>>, b: seq<seq<T>>)
    ensures Flatten(a + b) == Flatten(a) + Flatten(b)
  {
    if a != [] {
      assert (a + b)[1..] == a[1..] + b;
      FlattenAppend(a[1..], b);
    } else {
      assert a + b == b;
    }
  }

  lemma {:induction false} EmbedAllAppend(embed: string -> Vector, a: seq<string>, b: seq<string>)
    ensures EmbedAll(embed, a + b) == EmbedAll(embed, a) + EmbedAll(embed, b)
  {
  }

  /** The embedding of every batch, batch by batch. */
  function EmbedBatches(embed: string -> Vector, batches: seq<seq<string>>): (r: seq<seq<Vector>>)
    ensures |r| == |batches|
  {
    seq(|batches|, j requires 0 <= j < |batches| => EmbedAll(embed, batches[j]))
  }

  /** The batches cover the texts: their concatenation is texts[from..]. */
  lemma {:induction false} BatchesCover(texts: seq<string>, size: nat, from: nat)
    requires size > 0 && from <= |texts|
    ensures Flatten(BatchesFrom(texts, size, from)) == texts[from..]
    decreases |texts| - from
  {
    if from < |texts| {
      var e := Min(from + size, |texts|);
      var rest := BatchesFrom(texts, size, from + size);
      if from + size < |texts| {
        BatchesCover(texts, size, from + size);
        assert texts[from..] == texts[from..e] + texts[from + size..];
      } else {
        assert rest == [];
      }
      assert BatchesFrom(texts, size, from) == [texts[from..e]] + rest;
      assert ([texts[from..e]] + rest)[1..] == rest;
    }
  }

  /** Batch j is the j-th consecutive slice of `size` texts (the last one
      may be shorter), and never empty. */
  lemma {:induction false} BatchesAreSlices(texts: seq<string>, size: nat, from: nat, j: nat)
    requires size > 0 && j < |BatchesFrom(texts, size, from)|
    ensures from + j * size < |texts|
    ensures BatchesFrom(texts, size, from)[j]
         == texts[from + j * size..Min(from + (j + 1) * size, |texts|)]
    ensures 0 < |BatchesFrom(texts, size, from)[j]| <= size
    decreases |texts| - from
  {
    if j > 0 {
      BatchesAreSlices(texts, size, from + size, j - 1);
      assert (from + size) + (j - 1) * size == from + j * size;
      assert (from + size) + j * size == from + (j + 1) * size;
    }
  }

  /** There are ceil((len(texts) - from) / size) batches: stated without
      division, the count is the least c with c * size covering the texts. */
  lemma {:induction false} BatchCount(texts: seq<string>, size: nat, from: nat)
    requires size > 0 && from <= |texts|
    ensures var c := |BatchesFrom(texts, size, from)|;
      (c - 1) * size < |texts| - from <= c * size
    decreases |texts| - from
  {
    var c := |BatchesFrom(texts, size, from)|;
    if from < |texts| {
      var c' := |BatchesFrom(texts, size, from + size)|;
      if from + size <= |texts| {
        BatchCount(texts, size, from + size);
        assert c == c' + 1;
        assert c * size == c' * size + size;
        assert (c - 1) * size == (c' - 1) * size + size;
      } else {
        assert c' == 0 && c == 1;
      }
    }
  }

  /** Embedding batch by batch and stacking gives one vector per text, in
      order. */
  lemma {:induction false} StackedBatches(embed: string -> Vector, texts: seq<string>, size: nat, from: nat)
    requires size > 0 && from <= |texts|
    ensures Flatten(EmbedBatches(embed, BatchesFrom(texts, size, from))) == EmbedAll(embed, texts[from..])
    decreases |texts| - from
  {
    if from < |texts| {
      var e := Min(from + size, |texts|);
      var rest := BatchesFrom(texts, size, from + size);
      var all := BatchesFrom(texts, size, from);
      assert all == [texts[from..e]] + rest;
      assert EmbedBatches(embed, all) == [EmbedAll(embed, texts[from..e])] + EmbedBatches(embed, rest);
      assert (EmbedBatches(embed, all))[1..] == EmbedBatches(embed, rest);
      if from + size < |texts| {
        StackedBatches(embed, texts, size, from + size);
        assert texts[from..] == texts[from..e] + texts[from + size..];
        EmbedAllAppend(embed, texts[from..e], texts[from + size..]);
      } else {
        assert rest == [];
        assert texts[from..] == texts[from..e];
      }
    }
  }

  lemma {:induction false} BatchesStep(texts: seq<string>, size: nat, from: nat)
    requires size > 0 && from < |texts|
    ensures BatchesFrom(texts, size, from)
         == [texts[from..Min(from + size, |texts|)]] + BatchesFrom(texts, size, from + size)
  {
  }

  /** One pass of the batching loop keeps its invariant. */
  lemma {:induction false} EmbedStep(embed: string -> Vector, texts: seq<string>, size: nat, start: nat,
                                     embeddings: seq<seq<Vector>>)
    requires size > 0 && start < |texts|
    requires embeddings + EmbedBatches(embed, BatchesFrom(texts, size, start))
          == EmbedBatches(embed, BatchesFrom(texts, size, 0))
    ensures (embeddings + [EmbedAll(embed, texts[start..Min(start + size, |texts|)])])
          + EmbedBatches(embed, BatchesFrom(texts, size, start + size))
         == EmbedBatches(embed, BatchesFrom(texts, size, 0))
  {
    var batch := texts[start..Min(start + size, |texts|)];
    BatchesStep(texts, size, start);
    var later := EmbedBatches(embed, BatchesFrom(texts, size, start + size));
    assert EmbedBatches(embed, BatchesFrom(texts, size, start)) == [EmbedAll(embed, batch)] + later;
    assert (embeddings + [EmbedAll(embed, batch)]) + later
        == embeddings + ([EmbedAll(embed, batch)] + later);
  }

  /** Lines 59-64: embed `texts[start : start + size]` for each start in
      `range(0, len(texts), size)` and stack the batch matrices. The result
      is one vector per text, in order. */
  method EmbedInBatches(embed: string -> Vector, texts: seq<string>, size: nat)
    returns (matrix: seq<Vector>)
    requires size > 0
    ensures matrix == EmbedAll(embed, texts)
  {
    var embeddings: seq<seq<Vector>> := [];
    var start: nat := 0;
    while start < |texts|
      invariant embeddings + EmbedBatches(embed, BatchesFrom(texts, size, start))
             == EmbedBatches(embed, BatchesFrom(texts, size, 0))
      decreases |texts| - start
    {
      var batch := texts[start..Min(start + size, |texts|)];
      EmbedStep(embed, texts, size, start, embeddings);
      embeddings := embeddings + [EmbedAll(embed, batch)];
      start := start + size;
    }
    assert embeddings == EmbedBatches(embed, BatchesFrom(texts, size, 0));
    matrix := Flatten(embeddings);
    StackedBatches(embed, texts, size, 0);
    assert texts[0..] == texts;
  }

  /** `metadatas or [{} for _ in texts]`: None and [] both fall back. */
  function MetadatasOr(metas: Option<seq<Metadata>>, n: nat): (r: seq<Metadata>)
    ensures metas.Some? && metas.value != [] ==> r == metas.value
    ensures (metas.None? || metas.value == []) ==> |r| == n && forall i :: 0 <= i < n ==> r[i] == map[]
  {
    if metas.Some? && metas.value != [] then metas.value else seq(n, _ => map[])
  }

  // ---------------------------------------------------------------------
  // Mapping a FAISS answer to hits
  // ---------------------------------------------------------------------

  /** A neighbour the loop skips: the -1 padding, or an index past the
      chunks. */
  predicate Skipped(nb: Neighbor, chunkCount: nat) {
    nb.index == -1 || nb.index >= chunkCount
  }

  /** The neighbours that are not skipped, in FAISS order. */
  function Kept(raw: seq<Neighbor>, chunkCount: nat): (r: seq<Neighbor>)
    ensures |r| <= |raw|
    ensures forall k :: 0 <= k < |r| ==> !Skipped(r[k], chunkCount)
  {
    if raw == [] then []
    else if Skipped(raw[0], chunkCount) then Kept(raw[1..], chunkCount)
    else [raw[0]] + Kept(raw[1..], chunkCount)
  }

  /** The hit for one kept neighbour: Python indexing into both lists (a
      negative index counts from the end), IndexError when out of range. */
  function HitFor(nb: Neighbor, chunks: seq<string>, metas: seq<Metadata>): (r: Result<Hit, StoreError>)
    ensures r.Ok? <==> -|chunks| <= nb.index < |chunks| && -|metas| <= nb.index < |metas|
    ensures r.Ok? ==>
      && Some(r.value.text) == PyGet(chunks, nb.index)
      && Some(r.value.metadata) == PyGet(metas, nb.index)
      && r.value.distance == nb.distance
  {
    match (PyGet(chunks, nb.index), PyGet(metas, nb.index))
    case (Some(t), Some(m)) => Ok(Hit(t, m, nb.distance))
    case _ => Err(OutOfRange)
  }

  /** The loop of `search` (lines 81-92) as a function of the FAISS answer. */
  function MapHits(raw: seq<Neighbor>, chunks: seq<string>, metas: seq<Metadata>): (r: Result<seq<Hit>, StoreError>)
    ensures r.Ok? ==> |r.value| <= |raw|
  {
    if raw == [] then Ok([])
    else if Skipped(raw[0], |chunks|) then MapHits(raw[1..], chunks, metas)
    else match HitFor(raw[0], chunks, metas)
      case Err(e) => Err(e)
      case Ok(h) =>
        match MapHits(raw[1..], chunks, metas)
        case Err(e) => Err(e)
        case Ok(rest) => Ok([h] + rest)
  }

  /** A neighbour that both lists can be indexed with. */
  predicate Resolvable(nb: Neighbor, chunks: seq<string>, metas: seq<Metadata>) {
    -|chunks| <= nb.index && -|metas| <= nb.index < |metas|
  }

  /** Mapping succeeds exactly when every kept neighbour resolves; then the
      hits are the kept neighbours, in order, each carrying the text and the
      metadata at the same index and the reported distance. */
  lemma {:induction false} MapHitsMeaning(raw: seq<Neighbor>, chunks: seq<string>, metas: seq<Metadata>)
    ensures var kept := Kept(raw, |chunks|);
      MapHits(raw, chunks, metas).Ok? <==> forall k :: 0 <= k < |kept| ==> Resolvable(kept[k], chunks, metas)
    ensures var kept := Kept(raw, |chunks|);
      MapHits(raw, chunks, metas).Ok? ==>
        var hits := MapHits(raw, chunks, metas).value;
        && |hits| == |kept|
        && forall k :: 0 <= k < |kept| ==>
             && Some(hits[k].text) == PyGet(chunks, kept[k].index)
             && Some(hits[k].metadata) == PyGet(metas, kept[k].index)
             && hits[k].distance == kept[k].distance
  {
    MapHitsOkIff(raw, chunks, metas);
    MapHitsValues(raw, chunks, metas);
  }

  predicate AllResolvable(kept: seq<Neighbor>, chunks: seq<string>, metas: seq<Metadata>) {
    forall k :: 0 <= k < |kept| ==> Resolvable(kept[k], chunks, metas)
  }

  lemma {:induction false} MapHitsOkIff(raw: seq<Neighbor>, chunks: seq<string>, metas: seq<Metadata>)
    ensures MapHits(raw, chunks, metas).Ok? <==> AllResolvable(Kept(raw, |chunks|), chunks, metas)
  {
    if raw != [] {
      MapHitsOkIff(raw[1..], chunks, metas);
      var kept := Kept(raw, |chunks|);
      var tail := Kept(raw[1..], |chunks|);
      if !Skipped(raw[0], |chunks|) {
        var hr := HitFor(raw[0], chunks, metas);
        var mr := MapHits(raw[1..], chunks, metas);
        assert hr.Ok? <==> Resolvable(raw[0], chunks, metas);
        assert MapHits(raw, chunks, metas).Ok? <==> hr.Ok? && mr.Ok?;
        assert kept == [raw[0]] + tail;
        ResolvableCons(raw[0], tail, chunks, metas);
      }
    }
  }

  lemma {:induction false} ResolvableCons(nb: Neighbor, tail: seq<Neighbor>, chunks: seq<string>, metas: seq<Metadata>)
    ensures AllResolvable([nb] + tail, chunks, metas)
        <==> Resolvable(nb, chunks, metas) && AllResolvable(tail, chunks, metas)
  {
    var kept := [nb] + tail;
    assert kept[0] == nb;
    assert forall k :: 0 < k < |kept| ==> kept[k] == tail[k - 1];
    assert forall k :: 0 <= k < |tail| ==> tail[k] == kept[k + 1];
  }

  lemma {:induction false} MapHitsValues(raw: seq<Neighbor>, chunks: seq<string>, metas: seq<Metadata>)
    ensures var kept := Kept(raw, |chunks|);
      MapHits(raw, chunks, metas).Ok? ==>
        var hits := MapHits(raw, chunks, metas).value;
        && |hits| == |kept|
        && forall k :: 0 <= k < |kept| ==>
             && Some(hits[k].text) == PyGet(chunks, kept[k].index)
             && Some(hits[k].metadata) == PyGet(metas, kept[k].index)
             && hits[k].distance == kept[k].distance
  {
    if raw != [] {
      MapHitsValues(raw[1..], chunks, metas);
      var kept := Kept(raw, |chunks|);
      var tail := Kept(raw[1..], |chunks|);
      if !Skipped(raw[0], |chunks|) {
        var hr := HitFor(raw[0], chunks, metas);
        var mr := MapHits(raw[1..], chunks, metas);
        if hr.Ok? && mr.Ok? {
          assert MapHits(raw, chunks, metas) == Ok([hr.value] + mr.value);
          assert kept == [raw[0]] + tail;
          var hits := [hr.value] + mr.value;
          assert forall k :: 0 < k < |hits| ==> hits[k] == mr.value[k - 1] && kept[k] == tail[k - 1];
        }
      }
    }
  }

  /** An answer made only of -1 padding and indices past the chunks gives
      no hits and no error. */
  lemma {:induction false} AllSkippedNoHits(raw: seq<Neighbor>, chunks: seq<string>, metas: seq<Metadata>)
    requires forall k :: 0 <= k < |raw| ==> Skipped(raw[k], |chunks|)
    ensures MapHits(raw, chunks, metas) == Ok([])
  {
    if raw != [] {
      assert forall k :: 0 <= k < |raw[1..]| ==> raw[1..][k] == raw[k + 1];
      AllSkippedNoHits(raw[1..], chunks, metas);
    }
  }

  /** With one metadata entry per chunk and indices FAISS can report (-1 or
      a valid position), mapping never fails. */
  lemma {:induction false} ConsistentStoreNeverFails(raw: seq<Neighbor>, chunks: seq<string>, metas: seq<Metadata>)
    requires |metas| == |chunks|
    requires forall k :: 0 <= k < |raw| ==> raw[k].index >= -1
    ensures MapHits(raw, chunks, metas).Ok?
  {
    if raw != [] {
      assert forall k :: 0 <= k < |raw[1..]| ==> raw[1..][k] == raw[k + 1];
      ConsistentStoreNeverFails(raw[1..], chunks, metas);
    }
  }

  // ---------------------------------------------------------------------
  // The store
  // ---------------------------------------------------------------------

  /** VectorStoreManager: the fields a build sets and a search reads. The
      embedding model name and device only configure the embedder, which is
      a parameter here. */
  class VectorStoreManager {
    var batchSize: int
    var textChunks: seq<string>
    var metadatas: seq<Metadata>
    var fullText: string
    var index: Option<FlatIndex>
    var dimension: Option<nat>

    /** A fresh store (lines 26-36): no texts, no index. */
    constructor (batchSize: int)
      ensures this.batchSize == batchSize
      ensures textChunks == [] && metadatas == [] && fullText == []
      ensures index == None && dimension == None
      ensures !IsReady()
    {
      this.batchSize := batchSize;
      textChunks := [];
      metadatas := [];
      fullText := [];
      index := None;
      dimension := None;
    }

    /** `is_ready` (lines 73-74). */
    predicate IsReady()
      reads this
    {
      index.Some? && |textChunks| > 0
    }

    /** `build` (lines 54-71). On an error nothing changes; on success the
        index holds one vector per text, in order, and the texts, their
        metadata and the joined full text are stored. */
    method Build(embed: string -> Vector, texts: seq<string>, metas: Option<seq<Metadata>>)
      returns (r: Result<(), StoreError>)
      modifies this
      ensures texts == [] ==> r == Err(NoTexts)
      ensures texts != [] && batchSize <= 0 ==> r == Err(BadBatchSize)
      ensures r.Err? ==> unchanged(this)
      ensures r.Ok? <==> texts != [] && batchSize > 0
      ensures r.Ok? ==>
        && batchSize == old(batchSize)
        && index == Some(FlatIndex(|embed(texts[0])|, EmbedAll(embed, texts)))
        && dimension == Some(|embed(texts[0])|)
        && textChunks == texts
        && metadatas == MetadatasOr(metas, |texts|)
        && fullText == Join(" ", texts)
      ensures r.Ok? ==> IsReady()
    {
      if texts == [] {
        return Err(NoTexts);
      }
      if batchSize <= 0 {
        return Err(BadBatchSize);
      }
      var matrix := EmbedInBatches(embed, texts, batchSize);
      dimension := Some(|matrix[0]|);
      index := Some(FlatIndex(|matrix[0]|, matrix));
      textChunks := texts;
      metadatas := MetadatasOr(metas, |texts|);
      fullText := Join(" ", texts);
      r := Ok(());
    }

    /** `search` (lines 76-92): RuntimeError before a build; otherwise the
        FAISS answer for the embedded query, mapped to hits. */
    method Search(embed: string -> Vector, knn: (FlatIndex, Vector, int) -> seq<Neighbor>,
                  query: string, topK: int)
      returns (r: Result<seq<Hit>, StoreError>)
      ensures !IsReady() ==> r == Err(NotBuilt)
      ensures IsReady() ==> r == MapHits(knn(index.value, embed(query), topK), textChunks, metadatas)
      ensures r.Ok? ==> |r.value| <= |knn(index.value, embed(query), topK)|
      ensures r.Ok? && 0 <= topK && (forall ix, q, k :: 0 <= k ==> |knn(ix, q, k)| <= k) ==> |r.value| <= topK
    {
      if !IsReady() {
        return Err(NotBuilt);
      }
      var queryVec := EmbedAll(embed, [query]);
      var raw := knn(index.value, queryVec[0], topK);
      var hits: seq<Hit> := [];
      var k := 0;
      assert raw[0..] == raw;
      PrefixedNothing(MapHits(raw, textChunks, metadatas));
      while k < |raw|
        invariant 0 <= k <= |raw|
        invariant MapHits(raw, textChunks, metadatas) == Prefixed(hits, MapHits(raw[k..], textChunks, metadatas))
      {
        var nb := raw[k];
        assert raw[k..][0] == nb && raw[k..][1..] == raw[k + 1..];
        if nb.index == -1 || nb.index >= |textChunks| {
          k := k + 1;
          continue;
        }
        var text := PyGet(textChunks, nb.index);
        var meta := PyGet(metadatas, nb.index);
        if text.None? || meta.None? {
          assert HitFor(nb, textChunks, metadatas) == Err(OutOfRange);
          assert MapHits(raw[k..], textChunks, metadatas) == Err(OutOfRange);
          return Err(OutOfRange);
        }
        var h := Hit(text.value, meta.value, nb.distance);
        assert HitFor(nb, textChunks, metadatas) == Ok(h);
        PrefixedAssoc(hits, h, MapHits(raw[k + 1..], textChunks, metadatas));
        hits := hits + [h];
        k := k + 1;
      }
      assert raw[k..] == [];
      assert hits + [] == hits;
      r := Ok(hits);
    }
  }

  lemma {:induction false} PrefixedNothing(rest: Result<seq<Hit>, StoreError>)
    ensures Prefixed([], rest) == rest
  {
    if rest.Ok? {
      assert [] + rest.value == rest.value;
    }
  }

  lemma {:induction false} PrefixedAssoc(done: seq<Hit>, h: Hit, rest: Result<seq<Hit>, StoreError>)
    ensures Prefixed(done, match rest case Err(e) => Err(e) case Ok(hs) => Ok([h] + hs))
         == Prefixed(done + [h], rest)
  {
    if rest.Ok? {
      assert done + ([h] + rest.value) == (done + [h]) + rest.value;
    }
  }

  /** `done` followed by what the rest of the loop yields. */
  function Prefixed(done: seq<Hit>, rest: Result<seq<Hit>, StoreError>): Result<seq<Hit>, StoreError> {
    match rest
    case Ok(hs) => Ok(done + hs)
    case Err(e) => Err(e)
  }
}
