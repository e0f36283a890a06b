/** The structured-output side of `RAGPipeline.query` (app/core/rag_engine.py):
    the answer shape the model is asked for, the fixed answers, the removal of
    code-fence markers from the model's text, and the parse-or-fall-back step
    around `json.loads` (an abstract parser here). */
module RagAnswer {
  import opened Wrappers
  import opened PyStr

  /** The fixed answer for an empty retrieval; the prompt also asks the model to
      use these exact words. */
  const NoInfoAnswer: string := "No relevant information found in the provided context."

  /** A value as `json.loads` returns it. */
  datatype Json =
    | JNull
    | JBool(b: bool)
    | JNumber(n: real)
    | JString(str: string)
    | JArray(items: seq<Json>)
    | JObject(fields: map<string, Json>)

  /** `{"answer": text, "relevant_documents": []}` */
  function AnswerOnly(text: string): Json
  {
    JObject(map["answer" := JString(text), "relevant_documents" := JArray([])])
  }

  const NoMatchesAnswer: Json := AnswerOnly(NoInfoAnswer)

  /** `{"filename": string, "matched_chunks": [string, ...]}` */
  predicate IsDocumentRef(j: Json)
  {
    && j.JObject?
    && "filename" in j.fields && j.fields["filename"].JString?
    && "matched_chunks" in j.fields && j.fields["matched_chunks"].JArray?
    && forall c :: c in j.fields["matched_chunks"].items ==> c.JString?
  }

  /** The answer structure the prompt asks the model for. */
  predicate IsStructuredAnswer(j: Json)
  {
    && j.JObject?
    && "answer" in j.fields && j.fields["answer"].JString?
    && "relevant_documents" in j.fields && j.fields["relevant_documents"].JArray?
    && forall d :: d in j.fields["relevant_documents"].items ==> IsDocumentRef(d)
  }

  /** An answer-only object is a well-formed structured answer carrying `text`. */
  lemma AnswerOnlyIsStructured(text: string)
    ensures IsStructuredAnswer(AnswerOnly(text))
    ensures AnswerOnly(text).fields["answer"] == JString(text)
    ensures AnswerOnly(text).fields["relevant_documents"] == JArray([])
  {
  }

  /** `re.sub(r"```json|```", "", s)`: scanning left to right, at each position the
      first alternative ("```json") is tried before the second ("```"), and
      scanning resumes after a removed match. */
  function RemoveFences(s: string): string
  {
    if |s| >= 7 && s[..7] == "```json" then RemoveFences(s[7..])
    else if |s| >= 3 && s[..3] == "```" then RemoveFences(s[3..])
    else if s == [] then []
    else [s[0]] + RemoveFences(s[1..])
  }

  /** No "```" anywhere in `t` (hence no "```json" either). */
  predicate FenceFree(t: string)
  {
    forall i :: 0 <= i < |t| - 2 ==> !(t[i] == '`' && t[i + 1] == '`' && t[i + 2] == '`')
  }

  /** `re.sub(...).strip()` */
  function CleanResponse(raw: string): string
  {
    Strip(RemoveFences(raw))
  }

  predicate FenceAt(t: string, i: int)
  {
    0 <= i < |t| - 2 && t[i] == '`' && t[i + 1] == '`' && t[i + 2] == '`'
  }

  /** Both patterns begin with a fence. */
  lemma PatternsStartWithFence(t: string)
    ensures |t| >= 3 && t[..3] == "```" ==> FenceAt(t, 0)
    ensures |t| >= 7 && t[..7] == "```json" ==> FenceAt(t, 0)
  {
    if |t| >= 3 && t[..3] == "```" {
      assert t[0] == t[..3][0] && t[1] == t[..3][1] && t[2] == t[..3][2];
    }
    if |t| >= 7 && t[..7] == "```json" {
      assert t[0] == t[..7][0] && t[1] == t[..7][1] && t[2] == t[..7][2];
    }
  }

  /** Text that does not start with a fence keeps its first character. */
  lemma RemoveFencesKeepsHead(t: string)
    requires t != [] && !FenceAt(t, 0)
    ensures RemoveFences(t) == [t[0]] + RemoveFences(t[1..])
  {
    PatternsStartWithFence(t);
  }

  /** The removal leaves no fence behind, not even one formed by joining the text
      around a removed fence. */
  lemma {:induction false} RemoveFencesFenceFree(s: string)
    ensures FenceFree(RemoveFences(s))
    decreases |s|
  {
    if |s| >= 7 && s[..7] == "```json" {
      RemoveFencesFenceFree(s[7..]);
    } else if |s| >= 3 && s[..3] == "```" {
      RemoveFencesFenceFree(s[3..]);
    } else if s != [] {
      var rest := RemoveFences(s[1..]);
      RemoveFencesFenceFree(s[1..]);
      var r := RemoveFences(s);
      assert !FenceAt(s, 0);
      RemoveFencesKeepsHead(s);
      assert r == [s[0]] + rest;
      if s[0] == '`' && |s| >= 2 {
        // the characters kept after a leading backtick cannot complete a fence
        assert !FenceAt(s[1..], 0);
        RemoveFencesKeepsHead(s[1..]);
        assert rest == [s[1]] + RemoveFences(s[2..]);
        if s[1] == '`' && |s| > 2 {
          assert s[2] != '`';
          assert !FenceAt(s[2..], 0);
          RemoveFencesKeepsHead(s[2..]);
          assert rest[1] == s[2];
        }
      }
      forall i | 0 <= i < |r| - 2
        ensures !(r[i] == '`' && r[i + 1] == '`' && r[i + 2] == '`')
      {
        if i > 0 {
          assert r[i] == rest[i - 1] && r[i + 1] == rest[i] && r[i + 2] == rest[i + 1];
        }
      }
    }
  }

  /** Text that holds no fence is left as it is. */
  lemma {:induction false} RemoveFencesIdentity(s: string)
    requires FenceFree(s)
    ensures RemoveFences(s) == s
  {
    if s != [] {
      assert FenceFree(s[1..]) by {
        forall i | 0 <= i < |s[1..]| - 2
          ensures !(s[1..][i] == '`' && s[1..][i + 1] == '`' && s[1..][i + 2] == '`')
        {
          assert s[1..][i] == s[i + 1];
        }
      }
      RemoveFencesIdentity(s[1..]);
      assert !FenceAt(s, 0);
      RemoveFencesKeepsHead(s);
    }
  }

  /** Fence-free text that does not end in a backtick cannot begin a fence,
      whatever follows it. */
  lemma NoFenceAtJoin(a: string, b: string)
    requires a != [] && FenceFree(a) && a[|a| - 1] != '`'
    ensures !FenceAt(a + b, 0)
  {
    if |a| >= 3 {
      assert (a + b)[0] == a[0] && (a + b)[1] == a[1] && (a + b)[2] == a[2];
    } else {
      assert (a + b)[|a| - 1] == a[|a| - 1];
    }
  }

  /** Fence-free text that does not end in a backtick passes through the removal
      untouched whatever follows it: no match can begin inside it. */
  lemma {:induction false} RemoveFencesPrefix(a: string, b: string)
    requires FenceFree(a) && (a == [] || a[|a| - 1] != '`')
    ensures RemoveFences(a + b) == a + RemoveFences(b)
  {
    if a == [] {
      assert a + b == b;
    } else {
      FenceFreeSlice(a, 1, |a|);
      RemoveFencesPrefix(a[1..], b);
      NoFenceAtJoin(a, b);
      RemoveFencesPrefixStep(a, b);
    }
  }

  /** The inductive step of `RemoveFencesPrefix`: the first character of `a` is kept. */
  lemma RemoveFencesPrefixStep(a: string, b: string)
    requires a != [] && !FenceAt(a + b, 0)
    requires RemoveFences(a[1..] + b) == a[1..] + RemoveFences(b)
    ensures RemoveFences(a + b) == a + RemoveFences(b)
  {
    RemoveFencesJoinHead(a, b);
    ConsAssemble(a, RemoveFences(a + b), RemoveFences(b));
  }

  /** A join that does not begin with a fence keeps its first character. */
  lemma RemoveFencesJoinHead(a: string, b: string)
    requires a != [] && !FenceAt(a + b, 0)
    ensures RemoveFences(a + b) == [a[0]] + RemoveFences(a[1..] + b)
  {
    var t := a + b;
    RemoveFencesKeepsHead(t);
    assert t[0] == a[0] && t[1..] == a[1..] + b;
  }

  lemma ConsAssemble(a: string, u: string, tail: string)
    requires a != [] && u == [a[0]] + (a[1..] + tail)
    ensures u == a + tail
  {
    assert a == [a[0]] + a[1..];
  }

  /** The marker "```json" is deleted and the scan resumes right after it. */
  lemma RemoveFencesLongMarker(b: string)
    ensures RemoveFences("```json" + b) == RemoveFences(b)
  {
    var t := "```json" + b;
    assert t[..7] == "```json" && t[7..] == b;
  }

  /** The marker "```", when "json" does not follow, is deleted and the scan resumes
      right after it. */
  lemma RemoveFencesShortMarker(b: string)
    requires |b| < 4 || b[..4] != "json"
    ensures RemoveFences("```" + b) == RemoveFences(b)
  {
    var t := "```" + b;
    if |t| >= 7 {
      assert t[..7] == "```" + b[..4];
      assert t[..7][3..] == b[..4];
    }
    assert t[..3] == "```" && t[3..] == b;
  }

  /** Only the markers are deleted: the text before a marker survives, and the scan
      resumes right after it. A "```" followed by "json" is the marker "```json". */
  lemma RemoveFencesAtMarker(a: string, b: string)
    requires FenceFree(a) && (a == [] || a[|a| - 1] != '`')
    ensures RemoveFences(a + ("```json" + b)) == a + RemoveFences(b)
    ensures (|b| < 4 || b[..4] != "json") ==> RemoveFences(a + ("```" + b)) == a + RemoveFences(b)
  {
    RemoveFencesPrefix(a, "```json" + b);
    RemoveFencesLongMarker(b);
    RemoveFencesPrefix(a, "```" + b);
    if |b| < 4 || b[..4] != "json" {
      RemoveFencesShortMarker(b);
    }
  }

  /** A reply wrapped in a "```json" ... "```" fence comes out as the text inside. */
  lemma RemoveFencesWrapped(t: string)
    requires FenceFree(t) && (t == [] || t[|t| - 1] != '`')
    ensures RemoveFences("```json" + (t + "```")) == t
  {
    RemoveFencesLongMarker(t + "```");
    RemoveFencesPrefix(t, "```");
    RemoveFencesShortMarker([]);
    assert "```" + [] == "```";
  }

  /** A slice of fence-free text is fence-free. */
  lemma FenceFreeSlice(t: string, lo: nat, hi: nat)
    requires FenceFree(t) && lo <= hi <= |t|
    ensures FenceFree(t[lo..hi])
  {
    forall i | 0 <= i < hi - lo - 2
      ensures !(t[lo..hi][i] == '`' && t[lo..hi][i + 1] == '`' && t[lo..hi][i + 2] == '`')
    {
      assert t[lo..hi][i] == t[lo + i];
    }
  }

  /** The cleaned text has no fence and no whitespace at either end. */
  lemma CleanResponseClean(raw: string)
    ensures FenceFree(CleanResponse(raw)) && IsStripped(CleanResponse(raw))
  {
    var t := RemoveFences(raw);
    RemoveFencesFenceFree(raw);
    var lo := StripSlice(t);
    FenceFreeSlice(t, lo, lo + |Strip(t)|);
  }

  /** Cleaning is idempotent. */
  lemma CleanResponseIdempotent(raw: string)
    ensures CleanResponse(CleanResponse(raw)) == CleanResponse(raw)
  {
    var c := CleanResponse(raw);
    CleanResponseClean(raw);
    RemoveFencesIdentity(c);
    StrippedFixed(c);
  }

  /** A response without backticks is only trimmed. */
  lemma CleanResponseNoBackticks(raw: string)
    requires forall i :: 0 <= i < |raw| ==> raw[i] != '`'
    ensures CleanResponse(raw) == Strip(raw)
  {
    RemoveFencesIdentity(raw);
  }

  /** `json.loads(cleaned)`, or `{"answer": cleaned, "relevant_documents": []}` when
      it raises. */
  function Recover(cleaned: string, loads: string -> Option<Json>): (r: Json)
    ensures loads(cleaned).Some? ==> r == loads(cleaned).value
    ensures loads(cleaned).None? ==> IsStructuredAnswer(r) && r.fields["answer"] == JString(cleaned)
  {
    match loads(cleaned)
    case Some(parsed) => parsed
    case None => AnswerOnly(cleaned)
  }

  /** No schema check is made on a successful parse: a parser that yields `null`
      makes the pipeline answer `null`. */
  lemma ParsedValueNotChecked(cleaned: string)
    ensures var r := Recover(cleaned, s => Some(JNull));
      r == JNull && !IsStructuredAnswer(r)
  {
  }
}
