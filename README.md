# genai-rag-azure core, modelled in Dafny

This project models the sequential logic of the `genai-rag-azure` retrieval-augmented
question-answering pipeline and proves properties of that model. The modelled parts are:

- **Query** (`RAGPipeline.query`): the question is embedded and the vector index is searched.
  An empty retrieval short-circuits to the fixed "No relevant information found in the
  provided context." answer. Otherwise the matches are folded, in order, into a labelled
  context, which is placed into the grounding prompt. The language model is called once.
  Code-fence markers are then removed from its text and the text is trimmed. Finally the
  result is either the parsed JSON or the answer-only fallback object.
- **Batch ingestion** (`RAGPipeline.process_blobs`): only names whose lower-cased form ends
  in ".pdf" are processed. Each one is downloaded to `temp_<basename>`, then extracted,
  chunked, embedded and upserted. The temporary file is removed whether or not a step
  failed, and one failing file never stops the others.
- **Index records** (`PineconeClient`):
  - `upsert_embeddings` zips chunks with embeddings into `{id, values, metadata}` records
    with ids `"<file_name or 'chunk'>-<i>"`.
  - Nothing is sent when there are no records.
  - The store has overwrite semantics.
  - `query` extracts the matches.
  - The constructor creates the index only if it is absent, with dimension 768.
- **Chunk cleanup** (`TextChunker.chunk_text`): empty or non-string input is guarded
  against. Then every piece from the splitter is stripped and the empty ones are dropped.

Most external collaborators are function values: the embedder, the similarity search,
`json.loads`, PDF extraction, the text splitter, and the success of the blob download, the
remote upsert, the index listing and the index creation. The three services whose calls
matter to the pipeline's promises are objects that record the calls they receive:
- the language model (`LanguageModel`) records every prompt it is sent;
- the blob container (`BlobStore`) records every download requested;
- the vector index (`VectorIndex`) records every batch it is sent.

A result of `None` (or `false`) stands for a call that raised.

Files and modules:

- `wrappers.dfy` (`Wrappers`): `Option`, `Result`.
- `pystr.dfy` (`PyStr`): the Python string operations the core relies on:
  - `str.strip` over the `str.isspace` whitespace set;
  - `lower`, `endswith`;
  - `os.path.basename`;
  - `str(int)` and reading it back.
- `chunker.dfy` (`Chunker`): app/core/chunker.py.
- `pinecone_index.dfy` (`PineconeIndex`): app/core/pinecone_client.py.
  - `VectorIndex` is one remote index, a key-value store whose `entries` the upsert
    overwrites.
  - `IndexService` is the set of existing indexes.
  - `PineconeClient` is the client bound to one index.
- `rag_answer.dfy` (`RagAnswer`): the answer structure, the fence removal and the
  parse-or-fall-back step of `query`.
- `rag_context.dfy` (`RagContext`): the context fold of `query`.
- `rag_prompt.dfy` (`RagPrompt`): the prompt template of `query`.
- `rag_engine.dfy` (`RagEngine`): `query` and `process_blobs` themselves.

app/core/rag_engine.py is spread over four modules. The answer recovery, the context fold and
the prompt template are separate steps of `query`, each with its own properties, and the
long prompt literals live in one module so that proofs about the other steps never
have to look at them.

Two behaviours of the code worth noting, both followed by the model:

- A failed index query is not caught by `PineconeClient.query` or `RAGPipeline.query`, so
  `RagEngine.Query` returns `Err(SearchFailed)` rather than the no-information answer.
- `re.sub` removes every "```json" and "```" anywhere in the text, not only at the ends,
  and `RemoveFences` does the same.

## Model

| member | source | states |
|---|---|---|
| PyStr.Strip | app/core/chunker.py:36 | `str.strip()` with no argument: `lstrip` (drop leading whitespace) then `rstrip` (drop trailing whitespace), whitespace being the `str.isspace` set; its contract is carried by `StripSlice` |
| PyStr.StripSlice | app/core/chunker.py:36 | `strip()` returns the slice of the input left after removing a whitespace-only prefix and suffix, and it neither begins nor ends with whitespace |
| PyStr.StripIsStripped | app/core/chunker.py:36 | a stripped string has no whitespace at either end |
| PyStr.StrippedFixed | app/core/chunker.py:36 | a string with no whitespace at either end is its own strip |
| PyStr.StripIdempotent | app/core/rag_engine.py:108 | stripping twice is stripping once |
| PyStr.StripEmptyIff | app/core/chunker.py:36 | `chunk.strip()` is falsy exactly when the piece is all whitespace (or empty) |
| PyStr.Lower | app/core/rag_engine.py:34 | `lower()` keeps the length and lower-cases each character independently |
| PyStr.IsPdfName | app/core/rag_engine.py:34 | `file.lower().endswith(".pdf")`: the lower-cased name ends in the four characters ".pdf" |
| PyStr.IsPdfNameIff | app/core/rag_engine.py:34 | `file.lower().endswith(".pdf")` holds exactly when the last four characters are '.', 'p' or 'P', 'd' or 'D', 'f' or 'F' |
| PyStr.Basename | app/core/rag_engine.py:38 | `os.path.basename` is the suffix after the last '/', holds no '/', and is the whole path when there is no '/' |
| PyStr.NatToStr | app/core/pinecone_client.py:51 | the ordinal in an id is a non-empty run of decimal digits without a leading zero |
| PyStr.ParseNatToStr | app/core/pinecone_client.py:51 | reading the digit string back gives the ordinal |
| PyStr.NatToStrInjective | app/core/pinecone_client.py:51 | different ordinals give different digit strings |
| Chunker.NewTextChunker | app/core/chunker.py:9-28 | the splitter is configured with the given size and overlap and the separators "\n\n", "\n", ".", "!", "?", ";", " ", "" in that order, the empty one last as the fallback |
| Chunker.DefaultTextChunker | app/core/chunker.py:9 | the defaults are chunk size 800 and overlap 150 |
| Chunker.CleanPieces | app/core/chunker.py:36 | the comprehension yields at most as many chunks as pieces, each non-empty with no whitespace at either end |
| Chunker.CleanPiecesSelects | app/core/chunker.py:35-36 | the output is the order-preserving selection of `strip(piece)` over the pieces whose strip is non-empty: output k is the stripped piece at the k-th kept position, positions increase, and a piece is kept iff its strip is non-empty |
| Chunker.CleanPiecesAt | app/core/chunker.py:36 | output k is the stripped piece at the k-th kept position |
| Chunker.KeptIndicesIncrease | app/core/chunker.py:36 | the kept positions are in increasing order (the order of the pieces is preserved) |
| Chunker.KeptIndicesExact | app/core/chunker.py:36 | a piece is kept exactly when its strip is non-empty |
| Chunker.ChunkText | app/core/chunker.py:30-36 | empty or non-string input gives []; otherwise the cleaned splitter output, no longer than the splitter's list, every chunk non-empty and trimmed |
| Chunker.GuardIgnoresSplitter | app/core/chunker.py:32-33 | for empty or non-string input the result is [] whatever the splitter would return (it is not consulted) |
| Chunker.CleanPiecesKeepsCleanPieces | app/core/chunker.py:36 | pieces that are already non-empty and trimmed pass through unchanged |
| PineconeIndex.OrDefault | app/core/pinecone_client.py:51-55 | `file_name or <default>`: the file name, or the default when the name is None or empty; ids use "chunk" and the "source" metadata "unknown" |
| PineconeIndex.IdFor | app/core/pinecone_client.py:51 | `f"{file_name or 'chunk'}-{i}"`: the prefix, a '-', then the decimal ordinal |
| PineconeIndex.IdRoundTrip | app/core/pinecone_client.py:51 | an id splits back, at its last '-', into its prefix and its ordinal |
| PineconeIndex.IdInjective | app/core/pinecone_client.py:46-51 | two ids are equal iff their prefixes and ordinals are equal |
| PineconeIndex.RecordsFor | app/core/pinecone_client.py:45-57 | the records the loop over `enumerate(zip(chunks, embeddings))` appends, one per pair, stopping at the shorter input |
| PineconeIndex.RecordsForShape | app/core/pinecone_client.py:45-57 | the record count is min(chunks, embeddings); record i has id `<prefix>-i`, text chunk i, source the file name or "unknown", and values equal to embedding i (so of the same length) |
| PineconeIndex.RecordsForIds | app/core/pinecone_client.py:46-51 | the ids of one call are pairwise distinct and are exactly the ids of ordinals 0..n-1, so they depend only on the file name and the count |
| PineconeIndex.BuildRecords | app/core/pinecone_client.py:45-57 | the append loop builds exactly the zipped records, no more than either input, with distinct ids |
| PineconeIndex.ApplyUpserts | app/core/pinecone_client.py:60 | the store after `index.upsert(vectors)`: each record in batch order is written under its id, replacing any record already there |
| PineconeIndex.ApplyUpsertsSpec | app/core/pinecone_client.py:60 | an upsert adds exactly the batch's ids to the keys, stores each record under its id, and leaves every other key alone |
| PineconeIndex.ApplyUpsertsKeys | app/core/pinecone_client.py:60 | the keys after an upsert are the old keys plus the batch's ids |
| PineconeIndex.ApplyUpsertsStores | app/core/pinecone_client.py:60 | with distinct ids, every record is stored under its id |
| PineconeIndex.ApplyUpsertsKeepsOthers | app/core/pinecone_client.py:60 | keys outside the batch keep their records |
| PineconeIndex.ReingestReplaces | app/core/pinecone_client.py:46-60 | a later batch whose ids cover an earlier batch's ids leaves no trace of the earlier one |
| PineconeIndex.ReingestSameFile | app/core/pinecone_client.py:46-60 | re-ingesting a file with the same record count replaces its records without adding any key |
| PineconeIndex.ShrunkReingestLeavesStale | app/core/pinecone_client.py:46-60 | re-ingesting a file that now yields fewer records leaves the old higher-ordinal records in place (overwrite never deletes) |
| PineconeIndex.MatchesOf | app/core/pinecone_client.py:76 | `results.get("matches", [])`: the response's matches, or [] when the key is absent |
| PineconeIndex.VectorIndex.Upsert | app/core/pinecone_client.py:60 | the call is logged in `batches` whether or not it is accepted; an accepted call applies the records in order with overwrite; a failed one leaves the entries unchanged |
| PineconeIndex.IndexService.ListIndexes | app/core/pinecone_client.py:30 | a successful listing gives exactly the names of the existing indexes; a failed one gives nothing |
| PineconeIndex.IndexService.CreateIndex | app/core/pinecone_client.py:33-37 | an accepted call adds a new index of the given name and dimension, with no entries and no calls, and changes no other index; a failed call changes nothing |
| PineconeIndex.PineconeClient.UpsertEmbeddings | app/core/pinecone_client.py:43-63 | with no records the index is not called (its log of calls and its entries are unchanged); otherwise exactly one upsert call carrying all the records, reported as that many records, or a failure with the entries unchanged |
| PineconeIndex.PineconeClient.Query | app/core/pinecone_client.py:65-78 | a failed remote query propagates (None); otherwise the response's matches, [] when it has none |
| PineconeIndex.Connect | app/core/pinecone_client.py:14-41 | a missing or empty API key fails before anything is touched; a failed listing fails with the indexes unchanged; an existing index of that name is reused unchanged; an absent one is created with dimension 768 and no entries, other indexes untouched, or, when the creation fails, the constructor fails and nothing changes; on success the client is bound to that index |
| RagAnswer.AnswerOnly | app/core/rag_engine.py:115 | the fallback object `{"answer": text, "relevant_documents": []}` |
| RagAnswer.AnswerOnlyIsStructured | app/core/rag_engine.py:113-115 | the fallback `{"answer": text, "relevant_documents": []}` is a well-formed answer carrying the text |
| RagAnswer.RemoveFences | app/core/rag_engine.py:108 | the `re.sub` that replaces every "```json" or "```" by nothing: a left-to-right scan that tries "```json" before "```" at each position, deletes a match and resumes right after it, and otherwise keeps the character |
| RagAnswer.CleanResponse | app/core/rag_engine.py:108 | the fence removal followed by `strip()` |
| RagAnswer.RemoveFencesKeepsHead | app/core/rag_engine.py:108 | the removal keeps a first character that does not start a fence |
| RagAnswer.RemoveFencesFenceFree | app/core/rag_engine.py:108 | after the removal no "```" is left, not even one formed by joining the text around a removed fence |
| RagAnswer.RemoveFencesIdentity | app/core/rag_engine.py:108 | text holding no fence is left unchanged |
| RagAnswer.RemoveFencesPrefix | app/core/rag_engine.py:108 | fence-free text that does not end in a backtick passes through unchanged whatever follows it, and the rest is cleaned independently |
| RagAnswer.RemoveFencesLongMarker | app/core/rag_engine.py:108 | a leading "```json" is deleted and the scan resumes right after it |
| RagAnswer.RemoveFencesShortMarker | app/core/rag_engine.py:108 | a leading "```" not followed by "json" is deleted and the scan resumes right after it |
| RagAnswer.RemoveFencesAtMarker | app/core/rag_engine.py:108 | only the markers are deleted: for text `a` before a marker (fence-free, not ending in a backtick), the result is `a` followed by the cleaned text after the marker |
| RagAnswer.RemoveFencesWrapped | app/core/rag_engine.py:108 | a reply wrapped as "```json" + t + "```" comes out as exactly t (for fence-free t not ending in a backtick) |
| RagAnswer.CleanResponseClean | app/core/rag_engine.py:108 | the cleaned text has no fence and no whitespace at either end |
| RagAnswer.CleanResponseIdempotent | app/core/rag_engine.py:108 | cleaning the cleaned text changes nothing |
| RagAnswer.CleanResponseNoBackticks | app/core/rag_engine.py:108 | a response without backticks is only trimmed |
| RagAnswer.Recover | app/core/rag_engine.py:109-115 | a successful parse is returned as it is; a parse failure gives the well-formed fallback whose answer is the cleaned text |
| RagAnswer.ParsedValueNotChecked | app/core/rag_engine.py:109-112 | no schema check is made: a parse yielding `null` is returned, though it is not a well-formed answer |
| RagContext.SourceOf | app/core/rag_engine.py:74 | `match["metadata"].get("source", "unknown")` |
| RagContext.TextOf | app/core/rag_engine.py:75 | `match["metadata"].get("text", "")` |
| RagContext.Block | app/core/rag_engine.py:76 | one match's `f"[Document: {filename}]\n{chunk_text}\n\n"` |
| RagContext.ContextOf | app/core/rag_engine.py:72-76 | the value of `context` after the loop: the blocks of the matches concatenated in retrieval order, "" for no matches |
| RagContext.BlockLayout | app/core/rag_engine.py:73-76 | a block is `[Document: <source>]\n<text>\n\n`, with "unknown" for a missing source and "" for a missing text |
| RagContext.ContextSnoc | app/core/rag_engine.py:72-76 | one more match appends exactly its block |
| RagContext.ContextConcat | app/core/rag_engine.py:72-76 | the context of concatenated match lists is the concatenation of their contexts |
| RagContext.ContextPrefixStep | app/core/rag_engine.py:72-76 | the context of the first k+1 matches extends that of the first k by block k |
| RagContext.ContextSplit | app/core/rag_engine.py:72-76 | splitting the matches anywhere splits the context there |
| RagContext.ContextBlockAt | app/core/rag_engine.py:72-76 | the context is the blocks in retrieval order: match k's block sits between the blocks of the matches before it and those after it |
| RagContext.ContextEmptyIff | app/core/rag_engine.py:72-76 | the context is empty exactly when there are no matches |
| RagContext.BuildContext | app/core/rag_engine.py:72-76 | the `context +=` loop computes the in-order concatenation of the blocks |
| RagPrompt.Prompt | app/core/rag_engine.py:78-102 | the f-string prompt: the fixed instructions (from the leading newline through "Context:\n"), the context, "\n\nQuestion:\n", the question and a final newline |
| RagPrompt.PromptHeadEndsWithContextLabel | app/core/rag_engine.py:78-97 | the fixed text before the context ends with the line "Context:" |
| RagPrompt.PromptLayout | app/core/rag_engine.py:78-102 | the prompt is the fixed head, then the context, then "\n\nQuestion:\n", then the literal question, then a newline |
| RagPrompt.PromptInjective | app/core/rag_engine.py:78-102 | for contexts of one length, the prompt determines both the context and the question |
| RagPrompt.PromptQuotesNoInfoAnswer | app/core/rag_engine.py:79-82 | the prompt quotes the exact no-information phrase right after the instruction to say it |
| RagEngine.EmbedQuery | app/core/rag_engine.py:62 | `self.embedder.embed([query])[0]`: the first vector, a failure when the embedder raises or returns none |
| RagEngine.Retrieve | app/core/rag_engine.py:62-63 | embedding then `vectorstore.query`: the first failure, or the matches of the response |
| RagEngine.AnswerFrom | app/core/rag_engine.py:104-115 | what the model says to the prompt, cleaned, then the parsed value or, on `JSONDecodeError`, the answer-only object; a model call that raised is an error |
| RagEngine.AnswerFromShape | app/core/rag_engine.py:104-115 | a failed model call is an error and never a fallback answer; otherwise the cleaned text is fence-free and trimmed, and the answer is the parsed value or the answer-only object of the cleaned text |
| RagEngine.LanguageModel.Generate | app/core/rag_engine.py:104 | `generate_response(prompt)`: the reply is the model's answer to the prompt, and the prompt is appended to the record of prompts sent |
| RagEngine.Query | app/core/rag_engine.py:59-115 | embedding or search failure propagates and the model's record of prompts is unchanged (it is not called); an empty retrieval returns exactly the no-information answer and the model is not called; otherwise the model is sent exactly one prompt, the one built from the in-order context and the literal question, and the answer is recovered from its reply |
| RagEngine.BlobStore.Download | app/core/rag_engine.py:43 | `download_file(...)`: succeeds as the container decides, and the blob name is appended to the record of downloads requested |
| RagEngine.Prepare | app/core/rag_engine.py:34-48 | how far one file gets: not a PDF, the first failing stage among download, extraction and embedding, or the chunks and embeddings to upsert |
| RagEngine.FileResult | app/core/rag_engine.py:32-57 | one file's outcome: skipped, failed at a stage, or the count of records upserted (0 when none were built) |
| RagEngine.IngestOne | app/core/rag_engine.py:42-51 | the index after one file: its records applied when it reached an accepted upsert, otherwise unchanged |
| RagEngine.IngestAll | app/core/rag_engine.py:32-57 | the index after the listing: `IngestOne` applied file by file in listing order |
| RagEngine.Outcomes | app/core/rag_engine.py:32-57 | the per-file outcomes in listing order |
| RagEngine.PdfNames | app/core/rag_engine.py:32-36 | the names that pass the `.pdf` filter, in listing order |
| RagEngine.TempPaths | app/core/rag_engine.py:38-39 | the `temp_<basename>` paths of the PDF names |
| RagEngine.FileBatches | app/core/pinecone_client.py:59-63 | the upsert calls one file makes: one carrying all its records when it has any, none otherwise |
| RagEngine.AllBatches | app/core/rag_engine.py:32-57 | the upsert calls of the whole listing, in order |
| RagEngine.TempPath | app/core/rag_engine.py:38-39 | the download path is "temp_" followed by a name with no '/' |
| RagEngine.PdfNamesFilter | app/core/rag_engine.py:32-36 | every fetched name is a PDF name, a name is fetched iff it is listed and is a PDF name, and no more names are fetched than listed |
| RagEngine.PdfNamesCount | app/core/rag_engine.py:32-36 | a PDF name is fetched exactly as many times as it is listed, any other name never |
| RagEngine.PdfNamesSelects | app/core/rag_engine.py:32-36 | the fetched names are an order-preserving selection of the listing: name k is the listed name at the k-th selected position, the positions increase strictly, and a position is selected iff its name is a PDF name |
| RagEngine.AllBatchesBound | app/core/rag_engine.py:32-57 | the index is called at most once per PDF name and never with an empty batch |
| RagEngine.TempPathsComplete | app/core/rag_engine.py:38-57 | every PDF name's download path is removed |
| RagEngine.TempPathsSound | app/core/rag_engine.py:38-57 | only download paths of listed PDF names are removed |
| RagEngine.OutcomesPerFile | app/core/rag_engine.py:32-57 | there is one outcome per listed name, and each is that file's own result, whatever happened to the files before it |
| RagEngine.IngestOneIdempotent | app/core/rag_engine.py:42-51 | ingesting a file a second time leaves the index as the first time did (ids are reproduced and overwritten, never duplicated) |
| RagEngine.IngestOneNoEffect | app/core/rag_engine.py:42-57 | a skipped file, a failed file, or a file with no records leaves the index untouched |
| RagEngine.IngestFile | app/core/rag_engine.py:38-57 | one PDF: the outcome is the first failing stage or the number of records upserted; exactly one download, of that file, is requested; the download path is removed on both the success and the exception path; the index changes only by that file's upsert and receives exactly that file's calls |
| RagEngine.VisitFile | app/core/rag_engine.py:32-57 | one loop pass: a non-PDF name is skipped with no download requested and nothing else called or changed; a PDF name is downloaded once and ingested |
| RagEngine.ProcessBlobs | app/core/rag_engine.py:27-57 | every listed name gets its own outcome; the downloads requested are exactly the PDF names, in listing order; every download path is removed; the index is the files' upserts applied in listing order, and it receives exactly the files' upsert calls in that order |

## Left out

- The text splitter (`RecursiveCharacterTextSplitter`) is an abstract function of the
  configuration and the text. Nothing is claimed about chunk sizes or overlaps.
- The embedding model, the similarity search, the language model's answers and
  `json.loads` are abstract functions. Scores, their order and the `top_k` bound are computed remotely
  from floats and are not modelled. `json.loads` is modelled only through its success
  or `JSONDecodeError`; any other exception it might raise is not modelled.
- Blob listing and app/core/azure_blob.py, app/core/text_extractor.py and
  app/core/data_ingest.py are not part of this model. The listing is the `files`
  parameter, and the success of a download and the extracted text are abstract
  functions.
- Local files are reduced to the set of existing paths. A failing `os.remove` is not
  modelled.
- The remote upsert is treated as one atomic call that applies all the records or none.
- Logging, numpy float conversion (the floats are passed through unchanged), timestamps,
  app/streamlit_app.py, app/core/config.py, and the scripts test.py and
  app/core/test_rag_pipeline.py are not part of this model.
- PyStr.Lower: lower-cases ASCII letters only. Python's `str.lower` also maps non-ASCII
  letters, so for such names the PDF test is decided on ASCII case only.
- RagContext.BlockLayout: a match whose "metadata" key is missing altogether (a
  `KeyError` in the source) is not modelled. Every match carries a metadata dictionary.
- PineconeIndex.Connect: the index name is a string. The case where the environment
  variable for the name is unset (None) is not modelled, and neither are the region and
  cloud settings.
- PineconeIndex.Connect: an existing index is reused without checking its dimension,
  as the source does.
- RagEngine.ProcessBlobs: only download requests are recorded. Extraction, chunking and
  embedding are functions of the file that run only after its download succeeded, and
  their calls are not recorded.
- PyStr.Basename: paths are treated as POSIX paths (`posixpath.basename`, split at '/'
  only). On Windows `os.path` is `ntpath`, which also splits at '\\' and after a drive
  prefix such as "C:".
- RagEngine.Query: an embedder that returns an empty list (an `IndexError` at `[0]` in
  the source) is reported as `EmbeddingFailed`, like an embedder that raises.
