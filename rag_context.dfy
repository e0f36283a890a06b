/** The context of `RAGPipeline.query` (app/core/rag_engine.py): one labelled
    block per retrieved match, in retrieval order. */
module RagContext {
  import opened PineconeIndex

  /** `match["metadata"].get("source", "unknown")` */
  function SourceOf(m: Match): string
  {
    if "source" in m.metadata then m.metadata["source"] else "unknown"
  }

  /** `match["metadata"].get("text", "")` */
  function TextOf(m: Match): string
  {
    if "text" in m.metadata then m.metadata["text"] else ""
  }

  /** `f"[Document: {filename}]\n{chunk_text}\n\n"` */
  function Block(m: Match): string
  {
    "[Document: " + SourceOf(m) + "]\n" + TextOf(m) + "\n\n"
  }

  /** The labelled blocks of the matches, in retrieval order. */
  function ContextOf(ms: seq<Match>): string
  {
    if ms == [] then "" else ContextOf(ms[..|ms| - 1]) + Block(ms[|ms| - 1])
  }

  /** A block is labelled with the match's source, or "unknown" when it has none, and
      holds its text, or nothing when it has none. */
  lemma BlockLayout(m: Match)
    ensures "source" !in m.metadata ==> Block(m)[..20] == "[Document: unknown]\n"
    ensures "text" !in m.metadata ==> Block(m) == "[Document: " + SourceOf(m) + "]\n\n\n"
    ensures "source" in m.metadata && "text" in m.metadata ==>
      Block(m) == "[Document: " + m.metadata["source"] + "]\n" + m.metadata["text"] + "\n\n"
  {
  }

  /** Appending a match appends its block. */
  lemma ContextSnoc(ms: seq<Match>, m: Match)
    ensures ContextOf(ms + [m]) == ContextOf(ms) + Block(m)
  {
    var ms' := ms + [m];
    assert ms'[..|ms'| - 1] == ms;
  }

  /** The context of a concatenation is the concatenation of the contexts. */
  lemma {:induction false} ContextConcat(a: seq<Match>, b: seq<Match>)
    ensures ContextOf(a + b) == ContextOf(a) + ContextOf(b)
    decreases |b|
  {
    if b == [] {
      assert a + b == a;
    } else {
      var n := |b| - 1;
      var init, m := b[..n], b[n];
      assert b == init + [m];
      assert a + b == (a + init) + [m];
      ContextConcat(a, init);
      ContextSnoc(a + init, m);
      ContextSnoc(init, m);
      var x, y, z := ContextOf(a), ContextOf(init), Block(m);
      assert ContextOf(a + b) == (x + y) + z;
      assert ContextOf(b) == y + z;
      ConcatAssoc(x, y, z);
    }
  }

  lemma ConcatAssoc(x: string, y: string, z: string)
    ensures (x + y) + z == x + (y + z)
  {
  }

  /** The context of the first k + 1 matches extends that of the first k by block k. */
  lemma ContextPrefixStep(ms: seq<Match>, k: nat)
    requires k < |ms|
    ensures ContextOf(ms[..k + 1]) == ContextOf(ms[..k]) + Block(ms[k])
  {
    var before := ms[..k + 1];
    assert before[..k] == ms[..k];
  }

  /** Splitting the matches anywhere splits the context there. */
  lemma ContextSplit(ms: seq<Match>, k: nat)
    requires k <= |ms|
    ensures ContextOf(ms) == ContextOf(ms[..k]) + ContextOf(ms[k..])
  {
    assert ms == ms[..k] + ms[k..];
    ContextConcat(ms[..k], ms[k..]);
  }

  /** Match k's block sits between the blocks of the matches before it and those
      after it: the context is the in-order concatenation of the blocks. */
  lemma ContextBlockAt(ms: seq<Match>, k: nat)
    requires k < |ms|
    ensures ContextOf(ms) == ContextOf(ms[..k]) + Block(ms[k]) + ContextOf(ms[k + 1..])
  {
    ContextSplit(ms, k + 1);
    ContextPrefixStep(ms, k);
  }

  /** The context is empty exactly when there are no matches. */
  lemma {:induction false} ContextEmptyIff(ms: seq<Match>)
    ensures ContextOf(ms) == "" <==> ms == []
  {
    if ms != [] {
      assert |ContextOf(ms)| >= |Block(ms[|ms| - 1])| > 0;
    }
  }

  /** The `context += ...` loop of `query`. */
  method BuildContext(matches: seq<Match>) returns (context: string)
    ensures context == ContextOf(matches)
  {
    context := "";
    for i := 0 to |matches|
      invariant context == ContextOf(matches[..i])
    {
      var filename := if "source" in matches[i].metadata then matches[i].metadata["source"] else "unknown";
      var chunkText := if "text" in matches[i].metadata then matches[i].metadata["text"] else "";
      var block := "[Document: " + filename + "]\n" + chunkText + "\n\n";
      assert block == Block(matches[i]);
      assert matches[..i + 1] == matches[..i] + [matches[i]];
      ContextSnoc(matches[..i], matches[i]);
      context := context + block;
    }
    assert matches[..|matches|] == matches;
  }
}
