/**
 * Top-k selection in `retrieve_top_k`: the chunks are ranked by descending
 * similarity score (`np.argsort(-scores)`), the first `k` positions of the
 * ranking are kept (`[:k]`), and each kept chunk is copied into a result
 * together with its score. The scores themselves are given.
 */
module Retriever {
  import opened PyText
  import opened IndexBuilder

  /** One retrieved entry: `{"score", "doc_id", "chunk_id", "text"}`. */
  datatype RetrievalResult = RetrievalResult(score: int, docId: string, chunkId: int, text: string)

  predicate Distinct(xs: seq<nat>) {
    forall a, b :: 0 <= a < b < |xs| ==> xs[a] != xs[b]
  }

  /** The result for chunk `c` scored `score`. */
  function ResultFor(c: Chunk, score: int): RetrievalResult {
    RetrievalResult(score, c.docId, c.chunkId, c.text)
  }

  /** Every entry of `order` is an index of `scores`. */
  predicate InRange(order: seq<nat>, n: nat) {
    forall a :: 0 <= a < |order| ==> order[a] < n
  }

  /** The indices in `order` have non-increasing scores. */
  predicate RankedBy(order: seq<nat>, scores: seq<int>)
    requires InRange(order, |scores|)
  {
    forall a, b :: 0 <= a < b < |order| ==> scores[order[a]] >= scores[order[b]]
  }

  /** The first slot of a ranked `order` whose score is below that of `x`. */
  method FindSlot(order: seq<nat>, scores: seq<int>, x: nat) returns (p: nat)
    requires InRange(order, |scores|) && x < |scores|
    requires RankedBy(order, scores)
    ensures p <= |order|
    ensures forall a :: 0 <= a < p ==> scores[order[a]] >= scores[x]
    ensures forall a :: p <= a < |order| ==> scores[order[a]] < scores[x]
  {
    p := 0;
    while p < |order| && scores[order[p]] >= scores[x]
      invariant p <= |order|
      invariant forall a :: 0 <= a < p ==> scores[order[a]] >= scores[x]
    {
      p := p + 1;
    }
  }

  /** Position `a` of `order` with `x` inserted at `p`. */
  lemma InsertAt(order: seq<nat>, x: nat, p: nat)
    requires p <= |order|
    ensures var order' := order[..p] + [x] + order[p..];
      && |order'| == |order| + 1
      && forall a :: 0 <= a < |order'| ==>
           order'[a] == if a < p then order[a] else if a == p then x else order[a - 1]
  {
  }

  lemma InsertRanked(order: seq<nat>, scores: seq<int>, x: nat, p: nat)
    requires InRange(order, |scores|) && x < |scores|
    requires RankedBy(order, scores)
    requires p <= |order|
    requires forall a :: 0 <= a < p ==> scores[order[a]] >= scores[x]
    requires forall a :: p <= a < |order| ==> scores[order[a]] < scores[x]
    ensures var order' := order[..p] + [x] + order[p..];
      InRange(order', |scores|) && RankedBy(order', scores)
  {
    var order' := order[..p] + [x] + order[p..];
    InsertAt(order, x, p);
    forall a, b | 0 <= a < b < |order'| ensures scores[order'[a]] >= scores[order'[b]] {
      if a < p && b > p {
        assert scores[order[a]] >= scores[order[b - 1]];
      }
    }
  }

  lemma InsertDistinct(order: seq<nat>, x: nat, p: nat)
    requires x !in order && Distinct(order)
    requires p <= |order|
    ensures Distinct(order[..p] + [x] + order[p..])
  {
    var order' := order[..p] + [x] + order[p..];
    InsertAt(order, x, p);
    forall a, b | 0 <= a < b < |order'| ensures order'[a] != order'[b] {
      if a != p && b != p {
        var a', b' := if a < p then a else a - 1, if b < p then b else b - 1;
        assert a' < b' && order'[a] == order[a'] && order'[b] == order[b'];
      } else if a == p {
        assert order'[b] == order[b - 1];
      } else {
        assert order'[a] == order[a];
      }
    }
  }

  lemma InsertMembers(order: seq<nat>, x: nat, p: nat)
    requires p <= |order|
    ensures forall j :: j in order[..p] + [x] + order[p..] <==> j in order || j == x
  {
    assert order == order[..p] + order[p..];
  }

  /** Inserting `x` at its slot keeps the ranking, keeps the entries distinct and adds `x`. */
  lemma InsertKeepsRanking(order: seq<nat>, scores: seq<int>, x: nat, p: nat)
    requires InRange(order, |scores|) && x < |scores| && x !in order
    requires RankedBy(order, scores) && Distinct(order)
    requires p <= |order|
    requires forall a :: 0 <= a < p ==> scores[order[a]] >= scores[x]
    requires forall a :: p <= a < |order| ==> scores[order[a]] < scores[x]
    ensures var order' := order[..p] + [x] + order[p..];
      && InRange(order', |scores|) && RankedBy(order', scores) && Distinct(order')
      && (forall j :: j in order' <==> j in order || j == x)
  {
    InsertRanked(order, scores, x, p);
    InsertDistinct(order, x, p);
    InsertMembers(order, x, p);
  }

  /** `np.argsort(-scores)`: every index once, ordered by non-increasing score. Which of several equal scores comes first is left open. */
  method ArgSortDescending(scores: seq<int>) returns (order: seq<nat>)
    ensures |order| == |scores|
    ensures InRange(order, |scores|)
    ensures forall j :: 0 <= j < |scores| ==> j in order
    ensures Distinct(order)
    ensures RankedBy(order, scores)
  {
    order := [];
    for i := 0 to |scores|
      invariant |order| == i
      invariant InRange(order, i)
      invariant forall j :: 0 <= j < i ==> j in order
      invariant Distinct(order)
      invariant RankedBy(order, scores)
    {
      var p := FindSlot(order, scores, i);
      InsertKeepsRanking(order, scores, i, p);
      order := order[..p] + [i] + order[p..];
    }
  }

  /** `retrieve_top_k` given the similarity score of every scored chunk; also returns the kept indices (`top_idx`). */
  method RetrieveTopK(index: Index, scores: seq<int>, k: int) returns (results: seq<RetrievalResult>, top: seq<nat>)
    requires |scores| <= |index.chunks|
    ensures |top| == |results| == SliceIndex(|scores|, k)
    ensures Distinct(top)
    ensures forall j :: 0 <= j < |top| ==>
      top[j] < |scores| && results[j] == ResultFor(index.chunks[top[j]], scores[top[j]])
    ensures forall a, b :: 0 <= a < b < |results| ==> results[a].score >= results[b].score
    ensures forall i, j :: 0 <= i < |scores| && i !in top && 0 <= j < |results| ==> scores[i] <= results[j].score
  {
    var order := ArgSortDescending(scores);
    top := SliceTo(order, k);
    results := [];
    for j := 0 to |top|
      invariant |results| == j
      invariant forall m :: 0 <= m < j ==> results[m] == ResultFor(index.chunks[top[m]], scores[top[m]])
    {
      var i := top[j];
      var chunk := index.chunks[i];
      results := results + [RetrievalResult(scores[i], chunk.docId, chunk.chunkId, chunk.text)];
    }
    forall i, j | 0 <= i < |scores| && i !in top && 0 <= j < |results|
      ensures scores[i] <= results[j].score
    {
      assert i in order;
      var q :| 0 <= q < |order| && order[q] == i;
      assert order[j] == top[j];
    }
  }
}
