/** `TextChunker` (app/core/chunker.py): the configuration handed to the
    recursive character splitter, and the guard-and-clean layer wrapped around
    it. The splitter itself is a library whose code is not part of this model,
    so it is a parameter `split` of the operations below. */
module Chunker {
  import opened PyStr

  const DefaultChunkSize: int := 800
  const DefaultChunkOverlap: int := 150

  /** Separator preference list, most natural boundary first: paragraph, line,
      sentence and clause punctuation, space, and "" as the per-character fallback. */
  const Separators: seq<string> := ["\n\n", "\n", ".", "!", "?", ";", " ", ""]

  /** What the splitter is constructed with. */
  datatype SplitterConfig = SplitterConfig(chunkSize: int, chunkOverlap: int, separators: seq<string>)

  datatype TextChunker = TextChunker(splitter: SplitterConfig)

  /** The argument of `chunk_text`: a `str`, or any other value (None, bytes, a number). */
  datatype TextArg = Str(s: string) | NotStr

  /** The splitter's output for a text under a configuration (library behaviour). */
  type Splitter = (SplitterConfig, string) -> seq<string>

  /** `TextChunker(chunk_size, chunk_overlap)`: the sizes are passed through and the
      separators are always the fixed preference list, ending in the "" fallback. */
  function NewTextChunker(chunkSize: int, chunkOverlap: int): (c: TextChunker)
    ensures c.splitter.chunkSize == chunkSize && c.splitter.chunkOverlap == chunkOverlap
    ensures c.splitter.separators == Separators
    ensures |c.splitter.separators| == 8 && c.splitter.separators[7] == ""
    ensures forall i :: 0 <= i < 7 ==> c.splitter.separators[i] != ""
  {
    TextChunker(SplitterConfig(chunkSize, chunkOverlap, Separators))
  }

  /** `TextChunker()` with its default arguments. */
  function DefaultTextChunker(): (c: TextChunker)
    ensures c.splitter == SplitterConfig(800, 150, Separators)
  {
    NewTextChunker(DefaultChunkSize, DefaultChunkOverlap)
  }

  /** `[chunk.strip() for chunk in pieces if chunk.strip()]`: every kept piece is
      stripped, the empty ones are dropped, and the order is kept. */
  function CleanPieces(pieces: seq<string>): (chunks: seq<string>)
    ensures |chunks| <= |pieces|
    ensures forall k :: 0 <= k < |chunks| ==> chunks[k] != [] && IsStripped(chunks[k])
  {
    if pieces == [] then []
    else
      var last := Strip(pieces[|pieces| - 1]);
      StripIsStripped(pieces[|pieces| - 1]);
      CleanPieces(pieces[..|pieces| - 1]) + (if last != [] then [last] else [])
  }

  /** The positions of the pieces that survive the cleanup, in increasing order. */
  function KeptIndices(pieces: seq<string>): (idx: seq<nat>)
    ensures forall k :: 0 <= k < |idx| ==> idx[k] < |pieces|
  {
    if pieces == [] then []
    else
      var n := |pieces| - 1;
      KeptIndices(pieces[..n]) + (if Strip(pieces[n]) != [] then [n] else [])
  }

  /** The cleanup is exactly an order-preserving selection: output k is the stripped
      piece at position `KeptIndices(pieces)[k]`, these positions increase strictly,
      and a piece is selected if and only if its stripped form is non-empty. */
  lemma CleanPiecesSelects(pieces: seq<string>)
    ensures var idx := KeptIndices(pieces);
      && |idx| == |CleanPieces(pieces)|
      && (forall k :: 0 <= k < |idx| ==> CleanPieces(pieces)[k] == Strip(pieces[idx[k]]))
      && (forall k, l :: 0 <= k < l < |idx| ==> idx[k] < idx[l])
      && (forall i :: 0 <= i < |pieces| ==> (i in idx <==> Strip(pieces[i]) != []))
  {
    CleanPiecesAt(pieces);
    KeptIndicesIncrease(pieces);
    KeptIndicesExact(pieces);
  }

  /** Output k is the stripped piece at the k-th kept position. */
  lemma {:induction false} CleanPiecesAt(pieces: seq<string>)
    ensures var idx := KeptIndices(pieces);
      && |idx| == |CleanPieces(pieces)|
      && (forall k :: 0 <= k < |idx| ==> CleanPieces(pieces)[k] == Strip(pieces[idx[k]]))
  {
    if pieces != [] {
      var n := |pieces| - 1;
      var init := pieces[..n];
      CleanPiecesAt(init);
      var idx0, c0 := KeptIndices(init), CleanPieces(init);
      var keep := Strip(pieces[n]) != [];
      var idx, c := KeptIndices(pieces), CleanPieces(pieces);
      assert idx == idx0 + (if keep then [n] else []);
      assert c == c0 + (if keep then [Strip(pieces[n])] else []);
      forall k | 0 <= k < |idx0|
        ensures c[k] == Strip(pieces[idx[k]])
      {
        assert c[k] == c0[k] && idx[k] == idx0[k];
        assert init[idx0[k]] == pieces[idx0[k]];
      }
    }
  }

  /** The kept positions increase strictly. */
  lemma {:induction false} KeptIndicesIncrease(pieces: seq<string>)
    ensures forall k, l :: 0 <= k < l < |KeptIndices(pieces)| ==> KeptIndices(pieces)[k] < KeptIndices(pieces)[l]
  {
    if pieces != [] {
      var n := |pieces| - 1;
      KeptIndicesIncrease(pieces[..n]);
      var idx0 := KeptIndices(pieces[..n]);
      var idx := KeptIndices(pieces);
      assert idx == idx0 + (if Strip(pieces[n]) != [] then [n] else []);
      forall k, l | 0 <= k < l < |idx|
        ensures idx[k] < idx[l]
      {
        assert idx[k] == idx0[k] < n;
        if l < |idx0| {
          assert idx[l] == idx0[l];
        } else {
          assert idx[l] == n;
        }
      }
    }
  }

  /** A position is kept exactly when its piece does not strip to nothing. */
  lemma {:induction false} KeptIndicesExact(pieces: seq<string>)
    ensures forall i :: 0 <= i < |pieces| ==> (i in KeptIndices(pieces) <==> Strip(pieces[i]) != [])
  {
    if pieces != [] {
      var n := |pieces| - 1;
      var init := pieces[..n];
      KeptIndicesExact(init);
      var idx0 := KeptIndices(init);
      var idx := KeptIndices(pieces);
      assert idx == idx0 + (if Strip(pieces[n]) != [] then [n] else []);
      forall i | 0 <= i < n
        ensures i in idx <==> Strip(pieces[i]) != []
      {
        assert init[i] == pieces[i];
        assert i in idx <==> i in idx0;
      }
    }
  }

  /** `chunk_text(text)`: an empty string or a non-string gives [] whatever the
      splitter would have said; otherwise the splitter's pieces, cleaned. */
  function ChunkText(chunker: TextChunker, text: TextArg, split: Splitter): (chunks: seq<string>)
    ensures (text == NotStr || text == Str("")) ==> chunks == []
    ensures text.Str? && text.s != "" ==> chunks == CleanPieces(split(chunker.splitter, text.s))
    ensures text.Str? ==> |chunks| <= |split(chunker.splitter, text.s)|
    ensures forall k :: 0 <= k < |chunks| ==> chunks[k] != [] && IsStripped(chunks[k])
  {
    if text.NotStr? || text.s == [] then [] else CleanPieces(split(chunker.splitter, text.s))
  }

  /** The guard answers before the splitter is consulted: for empty or non-string
      input, any two splitters give the same (empty) result. */
  lemma GuardIgnoresSplitter(chunker: TextChunker, text: TextArg, f: Splitter, g: Splitter)
    requires text == NotStr || text == Str("")
    ensures ChunkText(chunker, text, f) == ChunkText(chunker, text, g) == []
  {
  }

  /** A splitter that already returns stripped, non-empty pieces is passed through unchanged. */
  lemma {:induction false} CleanPiecesKeepsCleanPieces(pieces: seq<string>)
    requires forall i :: 0 <= i < |pieces| ==> pieces[i] != [] && IsStripped(pieces[i])
    ensures CleanPieces(pieces) == pieces
  {
    if pieces != [] {
      var n := |pieces| - 1;
      CleanPiecesKeepsCleanPieces(pieces[..n]);
      StrippedFixed(pieces[n]);
      assert CleanPieces(pieces) == CleanPieces(pieces[..n]) + [pieces[n]];
      assert pieces == pieces[..n] + [pieces[n]];
    }
  }
}
