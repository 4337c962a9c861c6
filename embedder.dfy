/**
 * The batching loop of `embed_texts`: the texts are sent to the embedding
 * provider in consecutive slices of four, in index order, and the returned
 * vectors are concatenated in the same order.
 */
module Embedder {
  import opened PyText

  /** One embedding row, as returned by the provider (before normalisation). */
  type Vector = seq<real>

  const BatchSize: nat := 4

  /** The slices `texts[i:i + 4]` for `i` in `range(0, len(texts), 4)`. */
  function Batches(texts: seq<string>): seq<seq<string>>
    decreases |texts|
  {
    if texts == [] then []
    else if |texts| <= BatchSize then [texts]
    else [texts[..BatchSize]] + Batches(texts[BatchSize..])
  }

  /** What the provider returns for each batch, concatenated in call order. */
  function CallAll(provider: seq<string> -> seq<Vector>, batches: seq<seq<string>>): seq<Vector> {
    if batches == [] then [] else provider(batches[0]) + CallAll(provider, batches[1..])
  }

  function Flatten<T>(xss: seq<seq<T>>): seq<T> {
    if xss == [] then [] else xss[0] + Flatten(xss[1..])
  }

  /** `embed_texts` without the final normalisation: the provider calls it makes and the rows it collects. */
  method EmbedTexts(provider: seq<string> -> seq<Vector>, texts: seq<string>)
    returns (vectors: seq<Vector>, calls: seq<seq<string>>)
    ensures calls == Batches(texts)
    ensures vectors == CallAll(provider, calls)
  {
    vectors, calls := [], [];
    var i := 0;
    while i < |texts|
      invariant calls + Batches(Drop(texts, i)) == Batches(texts)
      invariant vectors == CallAll(provider, calls)
      decreases |texts| - i
    {
      var end := if i + BatchSize <= |texts| then i + BatchSize else |texts|;
      var batch := texts[i..end];
      BatchesUnfold(texts, i);
      CallAllAppend(provider, calls, batch);
      calls := calls + [batch];
      vectors := vectors + provider(batch);
      i := i + BatchSize;
    }
  }

  lemma BatchesUnfold(texts: seq<string>, i: nat)
    requires i < |texts|
    ensures var end := if i + BatchSize <= |texts| then i + BatchSize else |texts|;
      Batches(Drop(texts, i)) == [texts[i..end]] + Batches(Drop(texts, i + BatchSize))
  {
    var rest := texts[i..];
    assert Drop(texts, i) == rest;
    if |rest| > BatchSize {
      assert rest[..BatchSize] == texts[i..i + BatchSize];
      assert rest[BatchSize..] == texts[i + BatchSize..] == Drop(texts, i + BatchSize);
    } else {
      assert Drop(texts, i + BatchSize) == [];
      assert rest == texts[i..|texts|];
    }
  }

  lemma {:induction false} CallAllAppend(provider: seq<string> -> seq<Vector>, calls: seq<seq<string>>, batch: seq<string>)
    ensures CallAll(provider, calls + [batch]) == CallAll(provider, calls) + provider(batch)
    decreases |calls|
  {
    if calls == [] {
      assert [batch][1..] == [];
    } else {
      CallAllAppend(provider, calls[1..], batch);
      assert (calls + [batch])[1..] == calls[1..] + [batch];
    }
  }

  /** The number of provider calls is `ceil(n / 4)`, and batch `j` is `texts[4j:4j + 4]`. */
  lemma {:induction false} BatchesShape(texts: seq<string>)
    ensures |Batches(texts)| == (|texts| + BatchSize - 1) / BatchSize
    ensures forall j :: 0 <= j < |Batches(texts)| ==>
      var end := if BatchSize * j + BatchSize <= |texts| then BatchSize * j + BatchSize else |texts|;
      BatchSize * j < end && Batches(texts)[j] == texts[BatchSize * j..end]
    decreases |texts|
  {
    if |texts| > BatchSize {
      var rest := texts[BatchSize..];
      BatchesShape(rest);
      var bs := Batches(texts);
      forall j | 0 <= j < |bs|
        ensures var end := if BatchSize * j + BatchSize <= |texts| then BatchSize * j + BatchSize else |texts|;
          BatchSize * j < end && bs[j] == texts[BatchSize * j..end]
      {
        if j > 0 {
          assert bs[j] == Batches(rest)[j - 1];
        }
      }
    }
  }

  /** The batches, concatenated in order, are exactly the input texts. */
  lemma {:induction false} BatchesFlatten(texts: seq<string>)
    ensures Flatten(Batches(texts)) == texts
    decreases |texts|
  {
    if |texts| > BatchSize {
      BatchesFlatten(texts[BatchSize..]);
      assert texts[..BatchSize] + texts[BatchSize..] == texts;
    } else if texts != [] {
      assert Batches(texts) == [texts];
    }
  }

  /** The provider answers every request with one row per input text. */
  ghost predicate OneRowEach(provider: seq<string> -> seq<Vector>) {
    forall b: seq<string> :: |provider(b)| == |b|
  }

  /** The provider embeds each text independently of the others in its batch. */
  ghost predicate Pointwise(provider: seq<string> -> seq<Vector>, single: string -> Vector) {
    forall b: seq<string> :: |provider(b)| == |b| && forall j :: 0 <= j < |b| ==> provider(b)[j] == single(b[j])
  }

  /** With one row per input, row `i` of the output is what the call for the batch holding `texts[i]` returned at that text's position. */
  lemma {:induction false} EmbedRowAt(provider: seq<string> -> seq<Vector>, texts: seq<string>, i: nat)
    requires OneRowEach(provider)
    requires i < |texts|
    ensures var bs := Batches(texts); var rows := CallAll(provider, bs);
      && |rows| == |texts|
      && i / BatchSize < |bs| && i % BatchSize < |bs[i / BatchSize]|
      && bs[i / BatchSize][i % BatchSize] == texts[i]
      && rows[i] == provider(bs[i / BatchSize])[i % BatchSize]
    decreases |texts|
  {
    var bs := Batches(texts);
    if |texts| <= BatchSize {
      assert bs == [texts];
      assert CallAll(provider, bs) == provider(texts) + CallAll(provider, []);
    } else {
      var rest := texts[BatchSize..];
      var head := texts[..BatchSize];
      assert bs == [head] + Batches(rest);
      assert bs[1..] == Batches(rest);
      assert CallAll(provider, bs) == provider(head) + CallAll(provider, Batches(rest));
      if i < BatchSize {
        EmbedRowAt(provider, rest, 0);
      } else {
        EmbedRowAt(provider, rest, i - BatchSize);
        assert (i - BatchSize) / BatchSize == i / BatchSize - 1;
        assert (i - BatchSize) % BatchSize == i % BatchSize;
      }
    }
  }

  /** A provider that answers with one row per text yields one row per input text in all. */
  lemma RowCount(provider: seq<string> -> seq<Vector>, texts: seq<string>)
    ensures OneRowEach(provider) ==> |CallAll(provider, Batches(texts))| == |texts|
  {
    if OneRowEach(provider) && texts != [] {
      EmbedRowAt(provider, texts, 0);
    }
  }

  /** With a provider that embeds texts independently, output row `i` is the embedding of `texts[i]`. */
  lemma EmbedPointwise(provider: seq<string> -> seq<Vector>, single: string -> Vector, texts: seq<string>)
    requires Pointwise(provider, single)
    ensures var rows := CallAll(provider, Batches(texts));
      |rows| == |texts| && forall i :: 0 <= i < |texts| ==> rows[i] == single(texts[i])
  {
    var bs := Batches(texts);
    var rows := CallAll(provider, bs);
    assert OneRowEach(provider);
    if texts == [] {
      assert bs == [];
    }
    forall i | 0 <= i < |texts| ensures |rows| == |texts| && rows[i] == single(texts[i]) {
      EmbedRowAt(provider, texts, i);
      var b := bs[i / BatchSize];
      assert |provider(b)| == |b|;
    }
  }
}
