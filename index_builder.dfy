/**
 * Index assembly in `build_index`: every loaded document is chunked, its
 * chunks are numbered from 0 in order, all chunk texts are embedded in one
 * pass, and the index pairs the chunk list with the embedding rows.
 */
module IndexBuilder {
  import opened Wrappers
  import opened PyText
  import opened Chunker
  import opened Embedder

  const DocsDir: string := "data/docs"
  const EmbeddingModel: string := "llama3"

  /** A loaded document: its path relative to the document root, and its text. */
  datatype Document = Document(id: string, text: string)

  /** The `Chunk` record: the document it came from, its position there, its text. */
  datatype Chunk = Chunk(docId: string, chunkId: int, text: string)

  /** The index: the model tag, the chunk entries and one embedding row per entry. */
  datatype Index = Index(embeddingModel: string, chunks: seq<Chunk>, embeddings: seq<Vector>)

  datatype BuildError =
    | NoDocuments(message: string)  // raised when the document root yields nothing
    | NothingToEmbed                // numpy rejects the empty array of rows

  const NoDocumentsMessage: string := "No documents found in " + DocsDir + ". Add .txt files first."

  /** `chunk_text(full_text)` with the default window of 800 and overlap of 120. */
  function DocChunkTexts(d: Document): seq<string> {
    Chunks(Normalize(d.text), DefaultChunkSize, DefaultOverlap)
  }

  /** The chunks of one document, numbered from 0 in order. */
  function Labelled(docId: string, texts: seq<string>): (cs: seq<Chunk>)
    ensures |cs| == |texts|
    ensures forall j :: 0 <= j < |texts| ==> cs[j] == Chunk(docId, j, texts[j])
  {
    seq(|texts|, j requires 0 <= j < |texts| => Chunk(docId, j, texts[j]))
  }

  /** The chunk list `build_index` assembles: each document's labelled chunks, documents in order. */
  function AllChunks(docs: seq<Document>): seq<Chunk> {
    if docs == [] then [] else Labelled(docs[0].id, DocChunkTexts(docs[0])) + AllChunks(docs[1..])
  }

  /** `[c.text for c in chunks]`. */
  function Texts(chunks: seq<Chunk>): (ts: seq<string>)
    ensures |ts| == |chunks| && forall i :: 0 <= i < |chunks| ==> ts[i] == chunks[i].text
  {
    seq(|chunks|, i requires 0 <= i < |chunks| => chunks[i].text)
  }

  /** The chunk texts of every document, concatenated in document order. */
  function ChunkTextsOf(docs: seq<Document>): seq<string> {
    if docs == [] then [] else DocChunkTexts(docs[0]) + ChunkTextsOf(docs[1..])
  }

  /** The nested loops of `build_index` that append one `Chunk` per chunk of each document. */
  method AssembleChunks(docs: seq<Document>) returns (chunks: seq<Chunk>)
    ensures chunks == AllChunks(docs)
  {
    chunks := [];
    for d := 0 to |docs|
      invariant chunks == AllChunks(docs[..d])
    {
      var pieces := ChunkText(docs[d].text, DefaultChunkSize, DefaultOverlap);
      ghost var before := chunks;
      for idx := 0 to |pieces|
        invariant chunks == before + Labelled(docs[d].id, pieces[..idx])
      {
        LabelledStep(docs[d].id, pieces, idx);
        chunks := chunks + [Chunk(docs[d].id, idx, pieces[idx])];
      }
      assert pieces[..|pieces|] == pieces;
      AllChunksPrefix(docs, d);
    }
    assert docs[..|docs|] == docs;
  }

  /** `build_index` once the documents are loaded: the error cases, then the index with its rows. */
  method BuildIndex(docs: seq<Document>, provider: seq<string> -> seq<Vector>) returns (r: Result<Index, BuildError>)
    ensures r == Failure(NoDocuments(NoDocumentsMessage)) <==> docs == []
    ensures r == Failure(NothingToEmbed) <==> docs != [] && AllChunks(docs) == []
    ensures r.Success? ==>
      && r.value.embeddingModel == EmbeddingModel
      && r.value.chunks == AllChunks(docs)
      && r.value.embeddings == CallAll(provider, Batches(Texts(AllChunks(docs))))
    ensures r.Success? && OneRowEach(provider) ==> |r.value.embeddings| == |r.value.chunks|
    ensures r.Success? <==> docs != [] && AllChunks(docs) != []
  {
    if docs == [] {
      return Failure(NoDocuments(NoDocumentsMessage));
    }
    var chunks := AssembleChunks(docs);
    var texts := Texts(chunks);
    var rows, calls := EmbedTexts(provider, texts);
    if texts == [] {
      return Failure(NothingToEmbed);
    }
    RowCount(provider, texts);
    r := Success(Index(EmbeddingModel, chunks, rows));
  }

  lemma LabelledStep(docId: string, texts: seq<string>, n: nat)
    requires n < |texts|
    ensures Labelled(docId, texts[..n + 1]) == Labelled(docId, texts[..n]) + [Chunk(docId, n, texts[n])]
  {
  }

  lemma {:induction false} AllChunksAppend(docs: seq<Document>, d: Document)
    ensures AllChunks(docs + [d]) == AllChunks(docs) + Labelled(d.id, DocChunkTexts(d))
    decreases |docs|
  {
    if docs == [] {
      assert [d][1..] == [];
    } else {
      AllChunksAppend(docs[1..], d);
      assert (docs + [d])[1..] == docs[1..] + [d];
    }
  }

  /** One more document of a prefix adds its labelled chunks. */
  lemma AllChunksPrefix(docs: seq<Document>, d: nat)
    requires d < |docs|
    ensures AllChunks(docs[..d + 1]) == AllChunks(docs[..d]) + Labelled(docs[d].id, DocChunkTexts(docs[d]))
  {
    assert docs[..d + 1] == docs[..d] + [docs[d]];
    AllChunksAppend(docs[..d], docs[d]);
  }

  lemma {:induction false} AllChunksConcat(a: seq<Document>, b: seq<Document>)
    ensures AllChunks(a + b) == AllChunks(a) + AllChunks(b)
    decreases |a|
  {
    if a != [] {
      AllChunksConcat(a[1..], b);
      var head := Labelled(a[0].id, DocChunkTexts(a[0]));
      assert (a + b)[0] == a[0] && (a + b)[1..] == a[1..] + b;
      assert AllChunks(a + b) == head + AllChunks(a[1..] + b);
      assert AllChunks(a) == head + AllChunks(a[1..]);
      AppendAssoc(head, AllChunks(a[1..]), AllChunks(b));
    } else {
      assert a + b == b;
    }
  }

  /** The chunks of document `d` sit together, numbered 0, 1, ..., between those of earlier and later documents. */
  lemma DocBlock(docs: seq<Document>, d: nat)
    requires d < |docs|
    ensures AllChunks(docs) ==
      AllChunks(docs[..d]) + Labelled(docs[d].id, DocChunkTexts(docs[d])) + AllChunks(docs[d + 1..])
  {
    var pre, mid := docs[..d], docs[d..];
    assert docs == pre + mid;
    AllChunksConcat(pre, mid);
    assert mid[0] == docs[d] && mid[1..] == docs[d + 1..];
    AppendAssoc(AllChunks(pre), Labelled(docs[d].id, DocChunkTexts(docs[d])), AllChunks(docs[d + 1..]));
  }

  /** The chunk texts are the in-order concatenation of `chunk_text` over the documents. */
  lemma {:induction false} AllChunksTexts(docs: seq<Document>)
    ensures Texts(AllChunks(docs)) == ChunkTextsOf(docs)
    decreases |docs|
  {
    if docs != [] {
      AllChunksTexts(docs[1..]);
      var head := Labelled(docs[0].id, DocChunkTexts(docs[0]));
      assert Texts(head + AllChunks(docs[1..])) == Texts(head) + Texts(AllChunks(docs[1..]));
      assert Texts(head) == DocChunkTexts(docs[0]);
    }
  }

  /** A document holding only whitespace contributes no chunk. */
  lemma BlankDocumentSkipped(d: Document, rest: seq<Document>)
    requires AllSpace(d.text)
    ensures AllChunks([d] + rest) == AllChunks(rest)
  {
    ChunkTextEmptyIff(d.text, DefaultChunkSize, DefaultOverlap);
    assert ([d] + rest)[1..] == rest;
  }

  /** Chunk ids are non-negative, and every id above 0 follows the previous id of the same document. */
  ghost predicate IdsContiguous(cs: seq<Chunk>) {
    forall k :: 0 <= k < |cs| ==>
      && 0 <= cs[k].chunkId
      && (cs[k].chunkId > 0 ==> 0 < k && cs[k - 1].docId == cs[k].docId && cs[k - 1].chunkId == cs[k].chunkId - 1)
  }

  /** The chunk list keeps the ids of each document contiguous from 0, in generation order. */
  lemma {:induction false} ChunkIdsContiguous(docs: seq<Document>)
    ensures IdsContiguous(AllChunks(docs))
    decreases |docs|
  {
    if docs != [] {
      ChunkIdsContiguous(docs[1..]);
      var head := Labelled(docs[0].id, DocChunkTexts(docs[0]));
      var tail := AllChunks(docs[1..]);
      assert IdsContiguous(tail);
      var cs := head + tail;
      forall k | 0 <= k < |cs|
        ensures && 0 <= cs[k].chunkId
                && (cs[k].chunkId > 0 ==> 0 < k && cs[k - 1].docId == cs[k].docId && cs[k - 1].chunkId == cs[k].chunkId - 1)
      {
        if k >= |head| {
          var j := k - |head|;
          assert cs[k] == tail[j];
          if tail[j].chunkId > 0 {
            assert tail[j].chunkId > 0 ==> 0 < j && tail[j - 1].docId == tail[j].docId && tail[j - 1].chunkId == tail[j].chunkId - 1;
            assert cs[k - 1] == tail[j - 1];
          }
        } else {
          assert cs[k] == head[k];
          if k > 0 {
            assert cs[k - 1] == head[k - 1];
          }
        }
      }
    }
  }

  /** With a provider that embeds texts independently, embedding row `i` is the embedding of chunk `i`'s text. */
  lemma IndexAligned(docs: seq<Document>, provider: seq<string> -> seq<Vector>, single: string -> Vector)
    requires Pointwise(provider, single)
    ensures var cs := AllChunks(docs); var rows := CallAll(provider, Batches(Texts(cs)));
      |rows| == |cs| && forall i :: 0 <= i < |cs| ==> rows[i] == single(cs[i].text)
  {
    EmbedPointwise(provider, single, Texts(AllChunks(docs)));
  }
}
