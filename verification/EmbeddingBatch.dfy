/** Batching of embeddings by length and ordering of rerank results (memory-model-server/app.py, `embed`,
    `rerank`). The encoder sees a batch as a whole, so a vector may depend on what it is batched with. */
module EmbeddingBatch {
  import opened Wrappers
  import opened Sorting

  type Vector = seq<real>
  type Encoder = seq<string> -> seq<Vector>

  /** One vector for each text of a batch. */
  ghost predicate IsEncoder(encode: Encoder) {
    forall batch :: |encode(batch)| == |batch|
  }

  function LengthAt(texts: seq<string>, i: int): int {
    if 0 <= i < |texts| then |texts[i]| else 0
  }

  /** The order of `sorted(..., key=len)`, which is stable. */
  function ByLength(texts: seq<string>): (int, int) -> bool {
    (i, j) => LengthAt(texts, i) < LengthAt(texts, j) || (LengthAt(texts, i) == LengthAt(texts, j) && i < j)
  }

  function Range(n: nat): seq<int> { seq(n, i => i) }

  /** Every index below `n` once. */
  ghost predicate IsPermutation(order: seq<int>, n: nat) {
    && |order| == n
    && (forall k | 0 <= k < n :: 0 <= order[k] < n)
    && Distinct(order)
    && (forall i | 0 <= i < n :: i in order)
  }

  lemma ByLengthIsStrictTotal(texts: seq<string>)
    ensures StrictTotal(ByLength(texts))
  {}

  lemma OrderIsPermutation(texts: seq<string>)
    ensures IsPermutation(Sort(ByLength(texts), Range(|texts|)), |texts|)
    ensures var order := Sort(ByLength(texts), Range(|texts|));
      forall i, j | 0 <= i < j < |texts| ::
        || |texts[order[i]]| < |texts[order[j]]|
        || (|texts[order[i]]| == |texts[order[j]]| && order[i] < order[j])
  {
    var order := Sort(ByLength(texts), Range(|texts|));
    ByLengthIsStrictTotal(texts);
    SortOfDistinct(ByLength(texts), Range(|texts|));
    forall k | 0 <= k < |order| ensures 0 <= order[k] < |texts| {
      assert order[k] in order;
    }
    forall i | 0 <= i < |texts| ensures i in order {
      assert Range(|texts|)[i] == i;
    }
  }

  function Gather(texts: seq<string>, order: seq<int>): seq<string>
    requires forall k | 0 <= k < |order| :: 0 <= order[k] < |texts|
  {
    seq(|order|, k requires 0 <= k < |order| => texts[order[k]])
  }

  function Min(a: int, b: int): int { if a < b then a else b }

  /** The order in which texts are processed. */
  function Order(texts: seq<string>): seq<int> { Sort(ByLength(texts), Range(|texts|)) }

  /** The place of the `k`-th processed text in its batch. */
  function Place(k: nat, size: nat): (r: nat)
    requires size >= 1
    ensures r < size && r <= k
  {
    if k < size then k else Place(k - size, size)
  }

  /** The batch in which the `k`-th processed text is encoded. */
  function BatchOf(texts: seq<string>, order: seq<int>, k: nat, size: nat): seq<string>
    requires size >= 1 && k < |order| && forall j | 0 <= j < |order| :: 0 <= order[j] < |texts|
  {
    var start := k - Place(k, size);
    Gather(texts, order[start..Min(start + size, |order|)])
  }

  /** The batches follow each other in the processing order, and all but the last are full: the `k`-th text is in
      batch number `n`, which has the texts from `n * size` on. */
  lemma BatchesAreFull(texts: seq<string>, order: seq<int>, k: nat, size: nat) returns (n: nat)
    requires size >= 1 && k < |order| && forall j | 0 <= j < |order| :: 0 <= order[j] < |texts|
    ensures var (batch, start) := (BatchOf(texts, order, k, size), n * size);
      && start <= k < start + size
      && |batch| == (if start + size <= |order| then size else |order| - start)
      && forall i | 0 <= i < |batch| :: batch[i] == texts[order[start + i]]
  {
    n := BatchNumber(k, size);
  }

  lemma {:induction false} BatchNumber(k: nat, size: nat) returns (n: nat)
    requires size >= 1
    ensures k - Place(k, size) == n * size
  {
    n := 0;
    if k >= size {
      var m := BatchNumber(k - size, size);
      n := m + 1;
      assert (m + 1) * size == m * size + size;
    }
  }

  /** `v` is what the encoder gives for the `k`-th processed text in its batch. */
  ghost predicate EncodedInBatch(encode: Encoder, texts: seq<string>, order: seq<int>, k: nat, size: nat, v: Vector)
    requires size >= 1 && k < |order| && forall j | 0 <= j < |order| :: 0 <= order[j] < |texts|
  {
    var batch := BatchOf(texts, order, k, size);
    var place := Place(k, size);
    place < |batch| == |encode(batch)| && batch[place] == texts[order[k]] && encode(batch)[place] == v
  }

  /** At every position is the vector that the encoder gave for the text at that position, in the batch in
      which the text was processed. */
  ghost predicate Embedded(encode: Encoder, texts: seq<string>, order: seq<int>, size: nat, result: seq<Vector>)
    requires size >= 1
  {
    && IsPermutation(order, |texts|) && |result| == |texts|
    && forall k | 0 <= k < |texts| :: EncodedInBatch(encode, texts, order, k, size, result[order[k]])
  }

  /** `embed`. `None` is the error for an incomplete batch, which does not occur, whatever the batch
      size. */
  method Embed(texts: seq<string>, maxBatchSize: nat, encode: Encoder) returns (result: Option<seq<Vector>>)
    requires maxBatchSize >= 1 && IsEncoder(encode)
    ensures result.Some? && Embedded(encode, texts, Order(texts), maxBatchSize, result.value)
  {
    var order := Order(texts);
    OrderIsPermutation(texts);
    var ordered := EncodeInOrder(texts, order, maxBatchSize, encode);
    var vectors := Scatter(order, ordered);
    if exists i | 0 <= i < |vectors| :: vectors[i].None? {
      return None;
    }
    result := Some(seq(|vectors|, i requires 0 <= i < |vectors| && vectors[i].Some? => vectors[i].value));
  }

  /** The loop over the batches. */
  method EncodeInOrder(texts: seq<string>, order: seq<int>, maxBatchSize: nat, encode: Encoder)
    returns (ordered: seq<Vector>)
    requires maxBatchSize >= 1 && IsEncoder(encode) && forall k | 0 <= k < |order| :: 0 <= order[k] < |texts|
    ensures |ordered| == |order|
    ensures forall k | 0 <= k < |order| :: EncodedInBatch(encode, texts, order, k, maxBatchSize, ordered[k])
  {
    ordered := [];
    var start := 0;
    while start < |order|
      invariant 0 <= start && Place(start, maxBatchSize) == 0 && |ordered| == Min(start, |order|)
      invariant forall k | 0 <= k < |ordered| :: EncodedInBatch(encode, texts, order, k, maxBatchSize, ordered[k])
    {
      var stop := Min(start + maxBatchSize, |order|);
      var batch := Gather(texts, order[start..stop]);
      ordered := ordered + encode(batch);
      forall k | start <= k < stop ensures EncodedInBatch(encode, texts, order, k, maxBatchSize, ordered[k]) {
        PlaceInBatch(start, k, maxBatchSize);
      }
      start := start + maxBatchSize;
    }
  }

  lemma {:induction false} PlaceInBatch(start: nat, k: nat, size: nat)
    requires size >= 1 && Place(start, size) == 0 && start <= k < start + size
    ensures Place(k, size) == k - start
  {
    if start >= size {
      PlaceInBatch(start - size, k - size, size);
    }
  }

  /** `for index, vector in zip(order, ordered_vectors): vectors[index] = vector` */
  method Scatter(order: seq<int>, ordered: seq<Vector>) returns (vectors: seq<Option<Vector>>)
    requires IsPermutation(order, |ordered|)
    ensures |vectors| == |order|
    ensures forall k | 0 <= k < |order| :: vectors[order[k]] == Some(ordered[k])
    ensures forall i | 0 <= i < |vectors| :: vectors[i].Some? && exists k :: 0 <= k < |order| && order[k] == i
  {
    vectors := seq(|order|, _ => None);
    for k := 0 to |order|
      invariant |vectors| == |order|
      invariant forall j | 0 <= j < k :: vectors[order[j]] == Some(ordered[j])
    {
      vectors := vectors[order[k] := Some(ordered[k])];
    }
    forall i | 0 <= i < |vectors| ensures vectors[i].Some? && exists k :: 0 <= k < |order| && order[k] == i {
      assert i in order;
    }
  }

  /** If a vector does not depend on the rest of its batch, neither the batch size nor the sorting shows. */
  lemma BatchingDoesNotShow(encode: Encoder, one: string -> Vector, texts: seq<string>, order: seq<int>, size: nat,
                            result: seq<Vector>)
    requires forall batch: seq<string>, k: nat | k < |batch| && k < |encode(batch)| :: encode(batch)[k] == one(batch[k])
    requires size >= 1 && Embedded(encode, texts, order, size, result)
    ensures result == seq(|texts|, i requires 0 <= i < |texts| => one(texts[i]))
  {
    forall i | 0 <= i < |texts| ensures result[i] == one(texts[i]) {
      assert i in order;
      var k :| 0 <= k < |order| && order[k] == i;
      OwnVector(encode, one, texts, order, k, size, result[i]);
    }
  }

  lemma OwnVector(encode: Encoder, one: string -> Vector, texts: seq<string>, order: seq<int>, k: nat, size: nat,
                  v: Vector)
    requires forall batch: seq<string>, k: nat | k < |batch| && k < |encode(batch)| :: encode(batch)[k] == one(batch[k])
    requires size >= 1 && k < |order| && forall j | 0 <= j < |order| :: 0 <= order[j] < |texts|
    requires EncodedInBatch(encode, texts, order, k, size, v)
    ensures v == one(texts[order[k]])
  {}

  // --------------------------------------------------------------- reranking

  datatype Hit = Hit(index: nat, score: real)

  function Clamp(x: real): real {
    var y := if x < 1.0 then x else 1.0;
    if y > 0.0 then y else 0.0
  }

  predicate Better(a: Hit, b: Hit) { a.score > b.score || (a.score == b.score && a.index < b.index) }

  lemma BetterIsStrictTotal()
    ensures StrictTotal(Better)
  {}

  function Hits(scores: seq<real>): seq<Hit> {
    seq(|scores|, i requires 0 <= i < |scores| => Hit(i, Clamp(scores[i])))
  }

  /** `x` is what the model returned for `document` as a member of some batch of at most `size` texts. */
  ghost predicate Scored(score: seq<string> -> seq<real>, document: string, x: real, size: nat) {
    exists batch: seq<string>, k: nat ::
      k < |batch| <= size && batch[k] == document && k < |score(batch)| && score(batch)[k] == x
  }

  /** `rerank`, where `score` is the model. With `top_n` missing or zero all documents are returned. */
  method Rerank(documents: seq<string>, topN: Option<nat>, batchSize: nat, score: seq<string> -> seq<real>)
    returns (hits: seq<Hit>, ghost scores: seq<real>)
    requires batchSize >= 1 && forall batch :: |score(batch)| == |batch|
    requires topN.Some? ==> topN.value <= |documents|
    ensures |scores| == |documents| && forall i | 0 <= i < |documents| ::
        Scored(score, documents[i], scores[i], batchSize)
    ensures |hits| == if topN.None? || topN.value == 0 then |documents| else topN.value
    ensures hits <= Sort(Better, Hits(scores))
  {
    var values := ScoreInOrder(documents, batchSize, score);
    scores := values;
    SortPermutes(Better, Hits(values));
    var results := Sort(Better, Hits(values));
    hits := if topN.None? || topN.value == 0 then results else results[..topN.value];
  }

  /** The loop over the batches of `rerank`. */
  method ScoreInOrder(documents: seq<string>, batchSize: nat, score: seq<string> -> seq<real>)
    returns (values: seq<real>)
    requires batchSize >= 1 && forall batch :: |score(batch)| == |batch|
    ensures |values| == |documents| && forall i | 0 <= i < |documents| ::
        Scored(score, documents[i], values[i], batchSize)
  {
    values := [];
    var start := 0;
    while start < |documents|
      invariant 0 <= start && |values| == Min(start, |documents|)
      invariant forall i | 0 <= i < |values| :: Scored(score, documents[i], values[i], batchSize)
    {
      var stop := Min(start + batchSize, |documents|);
      var batch := documents[start..stop];
      values := values + score(batch);
      forall i | start <= i < stop ensures Scored(score, documents[i], values[i], batchSize) {
        assert batch[i - start] == documents[i] && score(batch)[i - start] == values[i];
      }
      start := start + batchSize;
    }
  }

  /** The full ranking has every document once, under its own score cut to the range from 0 to 1; the scores
      descend, and equal ones stand in document order. So a cut at `n` keeps the best `n`. */
  lemma RankingIsRight(scores: seq<real>)
    ensures var all := Sort(Better, Hits(scores));
      && |all| == |scores|
      && (forall i | 0 <= i < |scores| ::
            Hit(i, if scores[i] < 0.0 then 0.0 else if scores[i] > 1.0 then 1.0 else scores[i]) in all)
      && (forall i, j | 0 <= i < j < |all| ::
            all[i].score > all[j].score || (all[i].score == all[j].score && all[i].index < all[j].index))
  {
    BetterIsStrictTotal();
    assert Distinct(Hits(scores));
    SortOfDistinct(Better, Hits(scores));
    forall i | 0 <= i < |scores| ensures Hit(i, Clamp(scores[i])) in Sort(Better, Hits(scores)) {
      assert Hits(scores)[i] in Sort(Better, Hits(scores));
    }
  }
}
