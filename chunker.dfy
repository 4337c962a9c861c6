/**
 * The character chunker of the RAG pipeline (`chunk_text`): whitespace is
 * normalised, then a window of `chunkSize` characters slides over the text,
 * advancing by `chunkSize - overlap` until a window reaches the end.
 */
module Chunker {
  import opened PyText

  const DefaultChunkSize: int := 800
  const DefaultOverlap: int := 120

  /** A negative offset clamped to zero. */
  function ClampZero(x: int): nat {
    if x < 0 then 0 else x
  }

  /** The window of at most `size` characters of `t` that starts at `s`. */
  function Window(t: string, s: nat, size: int): string
    requires s <= |t| && 0 < size
  {
    t[s..Min(|t|, s + size)]
  }

  /** The chunks the loop of `chunk_text` emits from offset `start` on. */
  function ChunksFrom(t: string, start: nat, size: int, overlap: int): seq<string>
    requires 0 <= overlap < size
    decreases |t| - start
  {
    if start >= |t| then []
    else
      var end := Min(|t|, start + size);
      if end == |t| then [t[start..end]]
      else
        [t[start..end]] + ChunksFrom(t, ClampZero(end - overlap), size, overlap)
  }

  /** The chunk list of an already normalised text. */
  function Chunks(t: string, size: int, overlap: int): seq<string>
    requires 0 <= overlap < size
  {
    if t == [] then [] else ChunksFrom(t, 0, size, overlap)
  }

  /** `chunk_text(text, chunk_size, overlap)`. */
  method ChunkText(text: string, chunkSize: int, overlap: int) returns (chunks: seq<string>)
    requires 0 <= overlap < chunkSize
    ensures chunks == Chunks(Normalize(text), chunkSize, overlap)
  {
    var t := Normalize(text);
    if t == [] {
      return [];
    }
    chunks := [];
    var start := 0;
    while start < |t|
      invariant 0 <= start
      invariant chunks + ChunksFrom(t, start, chunkSize, overlap) == Chunks(t, chunkSize, overlap)
      decreases |t| - start
    {
      var end := Min(|t|, start + chunkSize);
      chunks := chunks + [t[start..end]];
      if end == |t| {
        break;
      }
      start := end - overlap;
      if start < 0 {
        start := 0;
      }
    }
  }

  /** One round of the loop: the window at `start`, then the chunks from `start + size - overlap` unless the window reached the end. */
  lemma ChunksFromUnfold(t: string, start: nat, size: int, overlap: int)
    requires 0 <= overlap < size
    requires start < |t|
    ensures var r := ChunksFrom(t, start, size, overlap);
      && r != []
      && r[0] == Window(t, start, size)
      && (|t| <= start + size ==> |r| == 1)
      && (start + size < |t| ==> r[1..] == ChunksFrom(t, start + size - overlap, size, overlap))
  {
  }

  /** `i * d`, written as repeated addition so that the induction below stays linear. */
  function Stride(i: nat, d: nat): nat {
    if i == 0 then 0 else Stride(i - 1, d) + d
  }

  lemma {:induction false} StrideIsProduct(i: nat, d: nat)
    ensures Stride(i, d) == i * d
  {
    if i > 0 {
      StrideIsProduct(i - 1, d);
    }
  }

  lemma {:induction false} StrideShift(i: nat, d: nat)
    requires i > 0
    ensures Stride(i, d) == d + Stride(i - 1, d)
  {
  }

  /** Chunk `i` emitted from `start` is the window at `start + i * (size - overlap)`; every chunk but the last is a full window. */
  lemma {:induction false} ChunkFromAt(t: string, start: nat, size: int, overlap: int, i: nat)
    requires 0 <= overlap < size
    requires i < |ChunksFrom(t, start, size, overlap)|
    ensures start + Stride(i, size - overlap) < |t|
    ensures ChunksFrom(t, start, size, overlap)[i] == Window(t, start + Stride(i, size - overlap), size)
    ensures i < |ChunksFrom(t, start, size, overlap)| - 1 ==> start + Stride(i, size - overlap) + size < |t|
    ensures i == |ChunksFrom(t, start, size, overlap)| - 1 ==> |t| <= start + Stride(i, size - overlap) + size
    decreases i
  {
    var r := ChunksFrom(t, start, size, overlap);
    ChunksFromUnfold(t, start, size, overlap);
    if i > 0 {
      var next := start + size - overlap;
      ChunkFromAt(t, next, size, overlap, i - 1);
      assert r[i] == r[1..][i - 1];
      StrideShift(i, size - overlap);
    }
  }

  /** Chunk `i` of a non-empty text is the window at `i * (size - overlap)`. */
  lemma ChunkAt(t: string, size: int, overlap: int, i: nat)
    requires 0 <= overlap < size
    requires i < |Chunks(t, size, overlap)|
    ensures var r := Chunks(t, size, overlap);
      var s := i * (size - overlap);
      && s < |t|
      && r[i] == Window(t, s, size)
      && (i < |r| - 1 ==> s + size < |t|)
      && (i == |r| - 1 ==> |t| <= s + size)
  {
    ChunkFromAt(t, 0, size, overlap, i);
    StrideIsProduct(i, size - overlap);
  }

  /** The chunk list is empty exactly when the text is. */
  lemma ChunksEmptyIff(t: string, size: int, overlap: int)
    requires 0 <= overlap < size
    ensures Chunks(t, size, overlap) == [] <==> t == []
  {
  }

  /** Every chunk is at most `size` long, and every chunk but the last is exactly `size` long. */
  lemma ChunkLengths(t: string, size: int, overlap: int)
    requires 0 <= overlap < size
    ensures var r := Chunks(t, size, overlap);
      forall i :: 0 <= i < |r| ==> 0 < |r[i]| <= size && (i < |r| - 1 ==> |r[i]| == size)
  {
    var r := Chunks(t, size, overlap);
    forall i | 0 <= i < |r| ensures 0 < |r[i]| <= size && (i < |r| - 1 ==> |r[i]| == size) {
      ChunkFromAt(t, 0, size, overlap, i);
    }
  }

  /** Chunk `i` is the substring of the text at offset `i * (size - overlap)`; the last chunk ends at the end of the text. */
  lemma ChunkOffsets(t: string, size: int, overlap: int)
    requires 0 <= overlap < size
    ensures var r := Chunks(t, size, overlap);
      && (forall i :: 0 <= i < |r| ==>
            var s := i * (size - overlap);
            s + |r[i]| <= |t| && r[i] == t[s..s + |r[i]|])
      && (r != [] ==> (|r| - 1) * (size - overlap) + |r[|r| - 1]| == |t|)
  {
    var r := Chunks(t, size, overlap);
    forall i | 0 <= i < |r|
      ensures var s := i * (size - overlap); s + |r[i]| <= |t| && r[i] == t[s..s + |r[i]|]
    {
      ChunkAt(t, size, overlap, i);
    }
    if r != [] {
      ChunkAt(t, size, overlap, |r| - 1);
    }
  }

  /** A text no longer than one window is a single chunk equal to the text. */
  lemma SingleChunk(t: string, size: int, overlap: int)
    requires 0 <= overlap < size
    requires 0 < |t| <= size
    ensures Chunks(t, size, overlap) == [t]
  {
    assert Min(|t|, size) == |t|;
    assert t[0..|t|] == t;
  }

  /** `s[overlap:]` of every chunk after the first, concatenated in order. */
  function Tails(chunks: seq<string>, overlap: nat): string {
    if chunks == [] then "" else Drop(chunks[0], overlap) + Tails(chunks[1..], overlap)
  }

  /** The first chunk followed by every later chunk minus its first `overlap` characters. */
  function Stitch(chunks: seq<string>, overlap: nat): string {
    if chunks == [] then "" else chunks[0] + Tails(chunks[1..], overlap)
  }

  /** Stitching a list of two or more chunks: the first chunk, then the stitched rest minus its first `overlap` characters. */
  lemma StitchStep(r: seq<string>, overlap: nat)
    requires |r| >= 2 && overlap <= |r[1]|
    ensures overlap <= |Stitch(r[1..], overlap)|
    ensures Stitch(r, overlap) == r[0] + Stitch(r[1..], overlap)[overlap..]
  {
    var r' := r[1..];
    var rest := Tails(r'[1..], overlap);
    assert Stitch(r', overlap) == r'[0] + rest;
    assert (r'[0] + rest)[overlap..] == r'[0][overlap..] + rest;
  }

  /** A window at `start`, then the text from `next` minus `end - next` characters, is the text from `start`. */
  lemma Rejoin(t: string, start: nat, end: nat, next: nat)
    requires start <= next <= end <= |t|
    ensures t[start..end] + t[next..][end - next..] == t[start..]
  {
    DropOfDrop(t, next, end - next);
  }

  lemma {:induction false} StitchFrom(t: string, start: nat, size: int, overlap: int)
    requires 0 <= overlap < size
    requires start < |t|
    ensures Stitch(ChunksFrom(t, start, size, overlap), overlap) == t[start..]
    decreases |t| - start
  {
    var r := ChunksFrom(t, start, size, overlap);
    ChunksFromUnfold(t, start, size, overlap);
    if start + size < |t| {
      var end := start + size;
      var next := end - overlap;
      StitchFrom(t, next, size, overlap);
      ChunksFromUnfold(t, next, size, overlap);
      var r' := r[1..];
      assert r' == ChunksFrom(t, next, size, overlap);
      assert Stitch(r', overlap) == t[next..];
      assert r[0] == t[start..end];
      StitchStep(r, overlap);
      assert Stitch(r, overlap) == t[start..end] + t[next..][overlap..];
      Rejoin(t, start, end, next);
    } else {
      assert r == [r[0]];
      assert r[0] == t[start..];
    }
  }

  /** Removing the overlaps and concatenating the chunks gives back the text. */
  lemma Reconstruct(t: string, size: int, overlap: int)
    requires 0 <= overlap < size
    ensures Stitch(Chunks(t, size, overlap), overlap) == t
  {
    if t != [] {
      StitchFrom(t, 0, size, overlap);
    }
  }

  /** `chunk_text` returns no chunk exactly when the input holds only whitespace. */
  lemma ChunkTextEmptyIff(text: string, size: int, overlap: int)
    requires 0 <= overlap < size
    ensures Chunks(Normalize(text), size, overlap) == [] <==> AllSpace(text)
  {
    NormalizeEmptyIff(text);
    ChunksEmptyIff(Normalize(text), size, overlap);
  }
}
