/** `RAGPipeline` (app/core/rag_engine.py): the query orchestration (retrieve,
    short-circuit on no matches, build the grounding prompt, call the language
    model once, recover a structured answer from its text) and the best-effort
    batch ingestion loop. Every external collaborator (embedder, vector search,
    `json.loads`, blob download, PDF extraction, the text splitter, the remote
    upsert) is a field of `Services`, and the language model is a `LanguageModel`
    object that records the prompts it is sent; a None result stands for a call
    that raised. */
module RagEngine {
  import opened Wrappers
  import opened PyStr
  import opened Chunker
  import opened PineconeIndex
  import opened RagAnswer
  import opened RagContext
  import opened RagPrompt

  /** Default `top_k` of `RAGPipeline.query`. */
  const QueryTopK: int := 5
  /** The chunker the pipeline is constructed with. */
  const PipelineChunker: TextChunker := NewTextChunker(800, 150)

  datatype Services = Services(
    embed: seq<string> -> Option<seq<Vector>>,
    search: (map<string, Record>, Vector, int) -> Option<QueryResponse>,
    loads: string -> Option<Json>,
    download: string -> bool,
    extract: string -> Option<string>,
    split: Splitter,
    accepts: seq<Record> -> bool)

  datatype QueryError = EmbeddingFailed | SearchFailed | GenerationFailed

  /** `self.embedder.embed([query])[0]`: fails when the embedder raises or returns
      no vector. */
  function EmbedQuery(svc: Services, query: string): Option<Vector>
  {
    match svc.embed([query])
    case None => None
    case Some(vs) => if vs == [] then None else Some(vs[0])
  }

  /** Embedding the question and searching the index. */
  function Retrieve(svc: Services, entries: map<string, Record>, query: string, topK: int)
    : Result<seq<Match>, QueryError>
  {
    match EmbedQuery(svc, query)
    case None => Err(EmbeddingFailed)
    case Some(v) =>
      match svc.search(entries, v, topK)
      case None => Err(SearchFailed)
      case Some(response) => Ok(MatchesOf(response))
  }

  /** Recovering the answer from what the language model says to a prompt. */
  function AnswerFrom(respond: string -> Option<string>, loads: string -> Option<Json>, prompt: string)
    : Result<Json, QueryError>
  {
    match respond(prompt)
    case None => Err(GenerationFailed)
    case Some(raw) => Ok(Recover(CleanResponse(raw), loads))
  }

  /** Whatever the model says, an answer is either exactly what parsing produced or a
      structured answer-only object whose text is fence-free and trimmed; a failed
      model call is an error, never a fallback answer. */
  lemma AnswerFromShape(respond: string -> Option<string>, loads: string -> Option<Json>, prompt: string)
    ensures respond(prompt).None? <==> AnswerFrom(respond, loads, prompt) == Err(GenerationFailed)
    ensures respond(prompt).Some? ==>
      var cleaned := CleanResponse(respond(prompt).value);
      && FenceFree(cleaned) && IsStripped(cleaned)
      && (loads(cleaned).Some? ==> AnswerFrom(respond, loads, prompt) == Ok(loads(cleaned).value))
      && (loads(cleaned).None? ==> AnswerFrom(respond, loads, prompt) == Ok(AnswerOnly(cleaned)))
  {
    if respond(prompt).Some? {
      CleanResponseClean(respond(prompt).value);
    }
  }

  /** The language model client (`GeminiClient`) as the pipeline uses it: `respond`
      is what the model answers to a prompt (None when the call raises), and
      `prompts` records every prompt it has been sent, in order. */
  class LanguageModel {
    const respond: string -> Option<string>
    ghost var prompts: seq<string>

    constructor (respond: string -> Option<string>)
      ensures this.respond == respond && prompts == []
    {
      this.respond := respond;
      prompts := [];
    }

    /** `generate_response(prompt)` */
    method Generate(prompt: string) returns (response: Option<string>)
      modifies this
      ensures response == respond(prompt)
      ensures prompts == old(prompts) + [prompt]
    {
      prompts := prompts + [prompt];
      response := respond(prompt);
    }
  }

  /** `RAGPipeline.query(query, top_k)`; `llm` is the pipeline's language model,
      whose record of prompts shows which calls the query made. */
  method Query(store: PineconeClient, svc: Services, llm: LanguageModel, query: string,
               topK: int := QueryTopK)
    returns (result: Result<Json, QueryError>)
    modifies llm
    ensures var retrieved := Retrieve(svc, store.index.entries, query, topK);
      && (retrieved.Err? ==> result == Err(retrieved.error) && llm.prompts == old(llm.prompts))
      && (retrieved == Ok([]) ==> result == Ok(NoMatchesAnswer) && llm.prompts == old(llm.prompts))
      && (retrieved.Ok? && retrieved.value != [] ==>
            var prompt := Prompt(ContextOf(retrieved.value), query);
            && llm.prompts == old(llm.prompts) + [prompt]
            && result == AnswerFrom(llm.respond, svc.loads, prompt))
  {
    var vectors := svc.embed([query]);
    if vectors.None? || vectors.value == [] {
      return Err(EmbeddingFailed);
    }
    var queryVector := vectors.value[0];
    var results := store.Query(queryVector, topK, svc.search);
    if results.None? {
      return Err(SearchFailed);
    }
    if results.value == [] {
      return Ok(AnswerOnly(NoInfoAnswer));
    }
    var context := BuildContext(results.value);
    var prompt := Prompt(context, query);
    var rawResponse := llm.Generate(prompt);
    if rawResponse.None? {
      return Err(GenerationFailed);
    }
    var cleaned := Strip(RemoveFences(rawResponse.value));
    var parsed := svc.loads(cleaned);
    if parsed.Some? {
      result := Ok(parsed.value);
    } else {
      result := Ok(AnswerOnly(cleaned));
    }
  }

  // ---------------------------------------------------------------------------
  // Batch ingestion

  datatype Stage = Download | Extract | Embed | Upsert

  /** Per-file result of `process_blobs`; `Ingested(0)` is a file whose chunks or
      embeddings came out empty, for which the store is not called. */
  datatype FileOutcome = Skipped | Ingested(vectors: nat) | Failed(stage: Stage)

  /** `f"temp_{os.path.basename(file)}"` */
  function TempPath(file: string): (p: string)
    ensures |p| >= 5 && p[..5] == "temp_" && forall i :: 5 <= i < |p| ==> p[i] != '/'
  {
    "temp_" + Basename(file)
  }

  /** The blob container (`AzureBlobClient`) as the pipeline uses it: `downloads`
      records every blob name a download was requested for, in order. */
  class BlobStore {
    const container: string
    ghost var downloads: seq<string>

    constructor (container: string)
      ensures this.container == container && downloads == []
    {
      this.container := container;
      downloads := [];
    }

    /** `download_file(container, name, path)`; `fetch` says whether the remote call
        succeeds (a failed call raises). */
    method Download(name: string, fetch: string -> bool) returns (ok: bool)
      modifies this
      ensures ok == fetch(name)
      ensures downloads == old(downloads) + [name]
    {
      downloads := downloads + [name];
      ok := fetch(name);
    }
  }

  /** How far a file gets before its records would be upserted. */
  datatype Prepared = NotPdf | StageFailed(stage: Stage) | Built(chunks: seq<string>, embeddings: seq<Vector>)

  function Prepare(svc: Services, file: string): Prepared
  {
    if !IsPdfName(file) then NotPdf
    else if !svc.download(file) then StageFailed(Download)
    else
      match svc.extract(file)
      case None => StageFailed(Extract)
      case Some(text) =>
        var chunks := ChunkText(PipelineChunker, Str(text), svc.split);
        match svc.embed(chunks)
        case None => StageFailed(Embed)
        case Some(embeddings) => Built(chunks, embeddings)
  }

  /** The outcome of one file, which depends on that file alone. */
  function FileResult(svc: Services, file: string): FileOutcome
  {
    match Prepare(svc, file)
    case NotPdf => Skipped
    case StageFailed(s) => Failed(s)
    case Built(chunks, embeddings) =>
      var vs := RecordsFor(chunks, embeddings, Some(file));
      if vs == [] then Ingested(0)
      else if svc.accepts(vs) then Ingested(|vs|)
      else Failed(Upsert)
  }

  /** The index entries after one file. */
  function IngestOne(m: map<string, Record>, svc: Services, file: string): map<string, Record>
  {
    match Prepare(svc, file)
    case Built(chunks, embeddings) =>
      var vs := RecordsFor(chunks, embeddings, Some(file));
      if vs != [] && svc.accepts(vs) then ApplyUpserts(m, vs) else m
    case _ => m
  }

  /** The index entries after the files, in order. */
  function IngestAll(m: map<string, Record>, svc: Services, files: seq<string>): map<string, Record>
  {
    if files == [] then m
    else IngestOne(IngestAll(m, svc, files[..|files| - 1]), svc, files[|files| - 1])
  }

  /** The batches one file sends to the index: its records in one call when it has
      any, nothing when it is skipped, fails before the upsert, or has no records. */
  function FileBatches(svc: Services, file: string): seq<seq<Record>>
  {
    match Prepare(svc, file)
    case Built(chunks, embeddings) =>
      var vs := RecordsFor(chunks, embeddings, Some(file));
      if vs != [] then [vs] else []
    case _ => []
  }

  /** The batches the files send to the index, in order. */
  function AllBatches(svc: Services, files: seq<string>): seq<seq<Record>>
  {
    if files == [] then []
    else AllBatches(svc, files[..|files| - 1]) + FileBatches(svc, files[|files| - 1])
  }

  /** The index is called at most once per PDF name and never with an empty batch. */
  lemma {:induction false} AllBatchesBound(svc: Services, files: seq<string>)
    ensures |AllBatches(svc, files)| <= |PdfNames(files)|
    ensures forall k :: 0 <= k < |AllBatches(svc, files)| ==> AllBatches(svc, files)[k] != []
  {
    if files != [] {
      AllBatchesBound(svc, files[..|files| - 1]);
    }
  }

  /** The per-file outcomes of the files, in order. */
  function Outcomes(svc: Services, files: seq<string>): seq<FileOutcome>
  {
    if files == [] then []
    else Outcomes(svc, files[..|files| - 1]) + [FileResult(svc, files[|files| - 1])]
  }

  /** Outcome k is file k's own result, whatever happened to the files before it. */
  lemma {:induction false} OutcomesPerFile(svc: Services, files: seq<string>)
    ensures |Outcomes(svc, files)| == |files|
    ensures forall k :: 0 <= k < |files| ==> Outcomes(svc, files)[k] == FileResult(svc, files[k])
  {
    if files != [] {
      var n := |files| - 1;
      OutcomesPerFile(svc, files[..n]);
      forall k | 0 <= k < n
        ensures Outcomes(svc, files)[k] == FileResult(svc, files[k])
      {
        assert files[..n][k] == files[k];
      }
    }
  }

  /** The names that pass the PDF filter, in order. */
  function PdfNames(files: seq<string>): seq<string>
  {
    if files == [] then []
    else
      var n := |files| - 1;
      PdfNames(files[..n]) + (if IsPdfName(files[n]) then [files[n]] else [])
  }

  /** The temporary paths the files' downloads use. */
  function TempPaths(files: seq<string>): set<string>
  {
    if files == [] then {}
    else
      var n := |files| - 1;
      TempPaths(files[..n]) + (if IsPdfName(files[n]) then {TempPath(files[n])} else {})
  }

  /** Exactly the PDF names are fetched. */
  lemma {:induction false} PdfNamesFilter(files: seq<string>)
    ensures forall k :: 0 <= k < |PdfNames(files)| ==> IsPdfName(PdfNames(files)[k])
    ensures forall f :: f in files && IsPdfName(f) <==> f in PdfNames(files)
    ensures |PdfNames(files)| <= |files|
  {
    if files != [] {
      var n := |files| - 1;
      PdfNamesFilter(files[..n]);
      assert files == files[..n] + [files[n]];
    }
  }

  /** A PDF name is fetched exactly as often as it is listed, any other name never. */
  lemma {:induction false} PdfNamesCount(files: seq<string>)
    ensures forall f :: multiset(PdfNames(files))[f] == if IsPdfName(f) then multiset(files)[f] else 0
  {
    if files != [] {
      var n := |files| - 1;
      PdfNamesCount(files[..n]);
      assert files == files[..n] + [files[n]];
      assert multiset(files) == multiset(files[..n]) + multiset{files[n]};
    }
  }

  /** The positions of the PDF names in the listing, in order. */
  function PdfPositions(files: seq<string>): (idx: seq<nat>)
    ensures forall k :: 0 <= k < |idx| ==> idx[k] < |files|
  {
    if files == [] then []
    else
      var n := |files| - 1;
      PdfPositions(files[..n]) + (if IsPdfName(files[n]) then [n] else [])
  }

  /** The fetched names are an order-preserving selection of the listing: name k is
      the listed name at position `PdfPositions(files)[k]`, these positions increase
      strictly, and a position is selected exactly when its name is a PDF name. */
  lemma {:induction false} PdfNamesSelects(files: seq<string>)
    ensures |PdfPositions(files)| == |PdfNames(files)|
    ensures forall k :: 0 <= k < |PdfNames(files)| ==> PdfNames(files)[k] == files[PdfPositions(files)[k]]
    ensures forall k, l :: 0 <= k < l < |PdfPositions(files)| ==> PdfPositions(files)[k] < PdfPositions(files)[l]
    ensures forall i :: 0 <= i < |files| ==> (i in PdfPositions(files) <==> IsPdfName(files[i]))
  {
    if files != [] {
      var n := |files| - 1;
      var init := files[..n];
      PdfNamesSelects(init);
      var idx0, idx := PdfPositions(init), PdfPositions(files);
      var out0, out := PdfNames(init), PdfNames(files);
      var keep := IsPdfName(files[n]);
      assert idx == idx0 + (if keep then [n] else []);
      assert out == out0 + (if keep then [files[n]] else []);
      forall k | 0 <= k < |idx0|
        ensures out[k] == files[idx[k]]
      {
        assert out[k] == out0[k] && idx[k] == idx0[k];
        assert init[idx0[k]] == files[idx0[k]];
      }
      forall k, l | 0 <= k < l < |idx|
        ensures idx[k] < idx[l]
      {
        assert idx[k] == idx0[k] < n;
        if l < |idx0| {
          assert idx[l] == idx0[l];
        } else {
          assert idx[l] == n;
        }
      }
      forall i | 0 <= i < n
        ensures i in idx <==> IsPdfName(files[i])
      {
        assert init[i] == files[i];
        assert i in idx <==> i in idx0;
      }
    }
  }

  /** Every PDF name's download path is among the removed paths. */
  lemma {:induction false} TempPathsComplete(files: seq<string>, k: nat)
    requires k < |files| && IsPdfName(files[k])
    ensures TempPath(files[k]) in TempPaths(files)
  {
    var n := |files| - 1;
    if k < n {
      TempPathsComplete(files[..n], k);
    }
  }

  /** Every removed path is the download path of some PDF name in the listing. */
  lemma {:induction false} TempPathsSound(files: seq<string>, p: string) returns (k: nat)
    requires p in TempPaths(files)
    ensures k < |files| && IsPdfName(files[k]) && TempPath(files[k]) == p
  {
    var n := |files| - 1;
    if p in TempPaths(files[..n]) {
      k := TempPathsSound(files[..n], p);
    } else {
      k := n;
    }
  }

  /** Ingesting a file a second time (with the same service behaviour) leaves the
      index as the first time: ids are reproduced and overwritten, never duplicated. */
  lemma IngestOneIdempotent(m: map<string, Record>, svc: Services, file: string)
    ensures IngestOne(IngestOne(m, svc, file), svc, file) == IngestOne(m, svc, file)
  {
    match Prepare(svc, file)
    case Built(chunks, embeddings) =>
      var vs := RecordsFor(chunks, embeddings, Some(file));
      if vs != [] && svc.accepts(vs) {
        ReingestSameFile(m, Some(file), chunks, embeddings, chunks, embeddings);
      }
    case _ =>
  }

  /** A skipped or failed file leaves the index untouched. */
  lemma IngestOneNoEffect(m: map<string, Record>, svc: Services, file: string)
    requires FileResult(svc, file).Skipped? || FileResult(svc, file).Failed? || FileResult(svc, file) == Ingested(0)
    ensures IngestOne(m, svc, file) == m
  {
  }

  /** A file that fails before its upsert leaves the index alone and fails at that stage. */
  lemma StageFailedEffect(m: map<string, Record>, svc: Services, file: string)
    requires Prepare(svc, file).StageFailed?
    ensures IngestOne(m, svc, file) == m
    ensures FileResult(svc, file) == Failed(Prepare(svc, file).stage)
  {
  }

  /** A file whose records were built is decided by its upsert. */
  lemma BuiltEffect(m: map<string, Record>, svc: Services, file: string,
                    chunks: seq<string>, embeddings: seq<Vector>)
    requires Prepare(svc, file) == Built(chunks, embeddings)
    ensures var vs := RecordsFor(chunks, embeddings, Some(file));
      && IngestOne(m, svc, file) == (if vs != [] && svc.accepts(vs) then ApplyUpserts(m, vs) else m)
      && FileResult(svc, file) ==
           (if vs == [] then Ingested(0) else if svc.accepts(vs) then Ingested(|vs|) else Failed(Upsert))
  {
  }

  /** The `try` block of `process_blobs` for one PDF name, with its cleanup: the
      download path is created, the blob is fetched, its text extracted, chunked,
      embedded and upserted, and the path is removed whichever step failed. */
  method IngestFile(store: PineconeClient, blobs: BlobStore, svc: Services, file: string, disk: set<string>)
    returns (outcome: FileOutcome, live: set<string>)
    requires IsPdfName(file)
    modifies store.index, blobs
    ensures blobs.downloads == old(blobs.downloads) + [file]
    ensures outcome == FileResult(svc, file)
    ensures live == disk - {TempPath(file)}
    ensures store.index.entries == IngestOne(old(store.index.entries), svc, file)
    ensures store.index.batches == old(store.index.batches) + FileBatches(svc, file)
  {
    ghost var before := store.index.entries;
    var downloadPath := TempPath(file);
    // opening the download path for writing creates it before the blob is read
    live := disk + {downloadPath};
    var downloaded := blobs.Download(file, svc.download);
    if !downloaded {
      StageFailedEffect(before, svc, file);
      outcome := Failed(Download);
    } else {
      var text := svc.extract(file);
      if text.None? {
        StageFailedEffect(before, svc, file);
        outcome := Failed(Extract);
      } else {
        var chunks := ChunkText(PipelineChunker, Str(text.value), svc.split);
        var embeddings := svc.embed(chunks);
        if embeddings.None? {
          StageFailedEffect(before, svc, file);
          outcome := Failed(Embed);
        } else {
          BuiltEffect(before, svc, file, chunks, embeddings.value);
          var upserted := store.UpsertEmbeddings(chunks, embeddings.value, Some(file), svc.accepts);
          outcome := match upserted
            case Upserted(n) => Ingested(n)
            case NothingToUpsert => Ingested(0)
            case UpsertFailed => Failed(Upsert);
        }
      }
    }
    // removed on the success path and by the exception handler alike
    live := live - {downloadPath};
  }

  /** Extending the listing by one name extends the fetched names, the removed
      paths and the index updates by that name's share. */
  lemma ListingStep(m: map<string, Record>, svc: Services, files: seq<string>, i: nat)
    requires i < |files|
    ensures var f, pre, post := files[i], files[..i], files[..i + 1];
      && PdfNames(post) == PdfNames(pre) + (if IsPdfName(f) then [f] else [])
      && TempPaths(post) == TempPaths(pre) + (if IsPdfName(f) then {TempPath(f)} else {})
      && IngestAll(m, svc, post) == IngestOne(IngestAll(m, svc, pre), svc, f)
      && Outcomes(svc, post) == Outcomes(svc, pre) + [FileResult(svc, f)]
  {
    assert files[..i + 1][..i] == files[..i];
  }

  /** Extending the listing by one name appends that name's batches to the log of
      calls the index has received. */
  lemma BatchesStep(sent: seq<seq<Record>>, svc: Services, files: seq<string>, i: nat)
    requires i < |files|
    ensures sent + AllBatches(svc, files[..i + 1]) == (sent + AllBatches(svc, files[..i])) + FileBatches(svc, files[i])
  {
    assert files[..i + 1][..i] == files[..i];
  }

  /** Extending the listing by one name appends that name, when it is a PDF name,
      to the record of downloads. */
  lemma DownloadsStep(done: seq<string>, files: seq<string>, i: nat)
    requires i < |files|
    ensures done + PdfNames(files[..i + 1]) ==
      (done + PdfNames(files[..i])) + (if IsPdfName(files[i]) then [files[i]] else [])
  {
    assert files[..i + 1][..i] == files[..i];
  }

  /** One pass of the `process_blobs` loop: a name that is not a PDF is skipped
      (`continue`); a PDF name is fetched and ingested. */
  method VisitFile(store: PineconeClient, blobs: BlobStore, svc: Services, file: string, disk: set<string>)
    returns (outcome: FileOutcome, live: set<string>)
    modifies store.index, blobs
    ensures outcome == FileResult(svc, file)
    ensures blobs.downloads == old(blobs.downloads) + (if IsPdfName(file) then [file] else [])
    ensures live == disk - (if IsPdfName(file) then {TempPath(file)} else {})
    ensures store.index.entries == IngestOne(old(store.index.entries), svc, file)
    ensures store.index.batches == old(store.index.batches) + FileBatches(svc, file)
  {
    if !IsPdfName(file) {
      return Skipped, disk;
    }
    outcome, live := IngestFile(store, blobs, svc, file, disk);
  }

  /** `RAGPipeline.process_blobs` over the listed blob names. `disk` is the set of
      local files beforehand and `live` afterwards; `blobs` records the
      downloads requested, in order. Every file gets its own outcome, whatever happened to the
      files before it. */
  method ProcessBlobs(store: PineconeClient, blobs: BlobStore, svc: Services, files: seq<string>,
                      disk: set<string>)
    returns (outcomes: seq<FileOutcome>, live: set<string>)
    modifies store.index, blobs
    ensures |outcomes| == |files|
    ensures forall k :: 0 <= k < |files| ==> outcomes[k] == FileResult(svc, files[k])
    ensures blobs.downloads == old(blobs.downloads) + PdfNames(files)
    ensures live == disk - TempPaths(files)
    ensures store.index.entries == IngestAll(old(store.index.entries), svc, files)
    ensures store.index.batches == old(store.index.batches) + AllBatches(svc, files)
  {
    ghost var before := store.index.entries;
    outcomes, live := [], disk;
    for i := 0 to |files|
      invariant outcomes == Outcomes(svc, files[..i])
      invariant blobs.downloads == old(blobs.downloads) + PdfNames(files[..i])
      invariant live == disk - TempPaths(files[..i])
      invariant store.index.entries == IngestAll(before, svc, files[..i])
      invariant store.index.batches == old(store.index.batches) + AllBatches(svc, files[..i])
    {
      ListingStep(before, svc, files, i);
      BatchesStep(old(store.index.batches), svc, files, i);
      DownloadsStep(old(blobs.downloads), files, i);
      var outcome;
      outcome, live := VisitFile(store, blobs, svc, files[i], live);
      outcomes := outcomes + [outcome];
    }
    assert files[..|files|] == files;
    OutcomesPerFile(svc, files);
  }
}
