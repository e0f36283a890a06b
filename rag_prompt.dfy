/** The grounding prompt of `RAGPipeline.query` (app/core/rag_engine.py): fixed
    instructions that quote the no-information answer and describe the answer
    structure, then the context, then the question. */
module RagPrompt {
  import opened RagAnswer

  /** The instructions of the prompt: the role, the exact no-information phrase in
      quotes, the answer structure and the rule against outside knowledge. */
  const Instructions: string := PromptIntro + "\"" + NoInfoAnswer + "\"\n" + PromptFormat

  const PromptIntro: string :=
    "\nYou are a highly accurate AI assistant that answers questions ONLY using the provided context.\n"
    + "\nIf the context does not contain the information, say exactly:\n"

  const PromptFormat: string :=
    "\nYou must respond in valid JSON only, with this structure:\n"
    + "{\n"
    + "  \"answer\": \"string\",\n"
    + "  \"relevant_documents\": [\n"
    + "    {\n"
    + "      \"filename\": \"string\",\n"
    + "      \"matched_chunks\": [\"string\", ...]\n"
    + "    }\n"
    + "  ]\n"
    + "}\n"
    + "\nUse only the facts from the context. Do not make assumptions or add outside knowledge.\n"

  const ContextLabel: string := "\nContext:\n"

  /** Everything before the context. */
  const PromptHead: string := Instructions + ContextLabel

  const QuestionLabel: string := "\n\nQuestion:\n"

  /** The grounding prompt for a context and a question. */
  function Prompt(context: string, query: string): string
  {
    PromptHead + context + QuestionLabel + query + "\n"
  }

  /** A slice inside the left operand of a concatenation is a slice of that operand. */
  lemma SliceOfLeft(x: string, y: string, i: nat, j: nat)
    requires i <= j <= |x|
    ensures (x + y)[i..j] == x[i..j]
  {
  }

  /** The parts of `head + context + QuestionLabel + query + "\n"`, for any head. */
  lemma FrameLayout(head: string, context: string, query: string)
    ensures var p, h := head + context + QuestionLabel + query + "\n", |head|;
      && p[..h] == head
      && p[h..h + |context|] == context
      && p[h + |context|..h + |context| + |QuestionLabel|] == QuestionLabel
      && p[h + |context| + |QuestionLabel|..|p| - 1] == query
      && p[|p| - 1] == '\n'
  {
  }

  /** The head of the prompt ends with the "Context:" label line. */
  lemma PromptHeadEndsWithContextLabel()
    ensures |PromptHead| >= 9 && PromptHead[|PromptHead| - 9..] == "Context:\n"
  {
    var n := |Instructions|;
    assert PromptHead[n..] == ContextLabel;
    assert PromptHead[|PromptHead| - 9..] == ContextLabel[1..];
  }

  /** The context follows the head (which ends with "Context:\n") and the literal question follows "Question:\n",
      and the two can be read back from the prompt given the context's length. */
  lemma PromptLayout(context: string, query: string)
    ensures var p, h := Prompt(context, query), |PromptHead|;
      && p[..h] == PromptHead
      && p[h..h + |context|] == context
      && p[h + |context|..h + |context| + |QuestionLabel|] == QuestionLabel
      && QuestionLabel[2..] == "Question:\n"
      && p[h + |context| + |QuestionLabel|..|p| - 1] == query
      && p[|p| - 1] == '\n'
  {
    FrameLayout(PromptHead, context, query);
  }

  /** For any head, equal frames around contexts of one length have equal parts. */
  lemma FrameInjective(head: string, c1: string, q1: string, c2: string, q2: string)
    requires |c1| == |c2|
    requires head + c1 + QuestionLabel + q1 + "\n" == head + c2 + QuestionLabel + q2 + "\n"
    ensures c1 == c2 && q1 == q2
  {
    FrameLayout(head, c1, q1);
    FrameLayout(head, c2, q2);
  }

  /** Different (context, question) pairs with contexts of one length give different
      prompts. */
  lemma PromptInjective(c1: string, q1: string, c2: string, q2: string)
    requires |c1| == |c2| && Prompt(c1, q1) == Prompt(c2, q2)
    ensures c1 == c2 && q1 == q2
  {
    FrameInjective(PromptHead, c1, q1, c2, q2);
  }

  /** In `intro + "\"" + phrase + "\"\n" + format + contextLabel + context + QuestionLabel +
      query + "\n"` the quoted phrase sits right after `intro`. */
  lemma QuotedAfter(intro: string, phrase: string, format: string, contextLabel: string,
                    context: string, query: string)
    ensures var p := intro + "\"" + phrase + "\"\n" + format + contextLabel + context + QuestionLabel + query + "\n";
      p[|intro|..|intro| + |phrase| + 2] == "\"" + phrase + "\""
  {
    var i, j := |intro|, |intro| + |phrase| + 2;
    var quoted := "\"" + phrase + "\"";
    var instructions := intro + "\"" + phrase + "\"\n" + format;
    assert instructions == intro + quoted + "\n" + format;
    var head := instructions + contextLabel;
    SliceOfLeft(instructions, contextLabel, i, j);
    SliceOfLeft(head, context, i, j);
    SliceOfLeft(head + context, QuestionLabel, i, j);
    SliceOfLeft(head + context + QuestionLabel, query, i, j);
    SliceOfLeft(head + context + QuestionLabel + query, "\n", i, j);
  }

  /** The prompt asks for the exact no-information phrase, in quotes. */
  lemma PromptQuotesNoInfoAnswer(context: string, query: string)
    ensures var start := |PromptIntro|;
      Prompt(context, query)[start..start + |NoInfoAnswer| + 2] == "\"" + NoInfoAnswer + "\""
  {
    QuotedAfter(PromptIntro, NoInfoAnswer, PromptFormat, ContextLabel, context, query);
  }
}
