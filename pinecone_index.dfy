/** `PineconeClient` (app/core/pinecone_client.py): how index records are built
    from chunks and embeddings, the id scheme that makes re-ingestion replace
    rather than duplicate, the create-if-absent connection step, and the
    extraction of matches from a query response. The remote service is modelled
    as a key-value store with overwrite semantics (`VectorIndex`) plus abstract
    functions for what it computes remotely (similarity search, acceptance). */
module PineconeIndex {
  import opened Wrappers
  import opened PyStr

  /** Dimension the index is created with (that of the all-mpnet-base-v2 embedder). */
  const IndexDimension: nat := 768
  /** Default `top_k` of `PineconeClient.query`. */
  const SearchTopK: int := 3

  /** An embedding; the floats are only passed through. */
  type Vector = seq<real>

  datatype Metadata = Metadata(text: string, source: string)

  /** `{"id": ..., "values": ..., "metadata": {"text": ..., "source": ...}}` */
  datatype Record = Record(id: string, values: Vector, metadata: Metadata)

  /** One element of a query response's "matches": the stored metadata comes back
      as a dictionary. */
  datatype Match = Match(id: string, score: real, metadata: map<string, string>)

  /** A query response; `matches` is None when the response has no "matches" key. */
  datatype QueryResponse = QueryResponse(matches: Option<seq<Match>>)

  datatype UpsertOutcome = Upserted(count: nat) | NothingToUpsert | UpsertFailed

  /** Why `PineconeClient()` raised: no API key, or a failed remote call. */
  datatype InitError = MissingApiKey | ListFailed | CreateFailed

  /** `file_name or dflt`: None and "" are falsy, so both give the default. Ids use
      the default "chunk" and the "source" metadata the default "unknown". */
  function OrDefault(fileName: Option<string>, dflt: string): (l: string)
    ensures fileName.Some? && fileName.value != "" ==> l == fileName.value
    ensures fileName.None? || fileName.value == "" ==> l == dflt
  {
    if fileName.None? || fileName.value == "" then dflt else fileName.value
  }

  /** `f"{file_name or 'chunk'}-{i}"` */
  function IdFor(fileName: Option<string>, i: nat): string
  {
    OrDefault(fileName, "chunk") + "-" + NatToStr(i)
  }

  /** Position of the last occurrence of `c` in `s`, or -1. */
  function LastIndexOf(s: string, c: char): (k: int)
    ensures -1 <= k < |s|
    ensures k >= 0 ==> s[k] == c
    ensures forall j :: k < j < |s| ==> s[j] != c
  {
    if s == [] then -1
    else if s[|s| - 1] == c then |s| - 1
    else LastIndexOf(s[..|s| - 1], c)
  }

  /** Reads an id back: the label before the last '-', and the ordinal after it
      when that part is a non-empty run of digits. */
  function ParseId(id: string): Option<(string, nat)>
  {
    var k := LastIndexOf(id, '-');
    if k < 0 then None
    else
      var digits := id[k + 1..];
      if digits != [] && forall i :: 0 <= i < |digits| ==> IsDigit(digits[i])
      then Some((id[..k], ParseNat(digits)))
      else None
  }

  /** Every id can be read back into its label and its ordinal: the ordinal has no
      '-', so the last '-' is always the separator. */
  lemma IdRoundTrip(fileName: Option<string>, i: nat)
    ensures ParseId(IdFor(fileName, i)) == Some((OrDefault(fileName, "chunk"), i))
  {
    var lbl, digits := OrDefault(fileName, "chunk"), NatToStr(i);
    var id := IdFor(fileName, i);
    assert id == lbl + "-" + digits;
    assert id[|lbl|] == '-';
    assert forall j :: |lbl| < j < |id| ==> id[j] == digits[j - |lbl| - 1];
    assert LastIndexOf(id, '-') == |lbl|;
    assert id[|lbl| + 1..] == digits;
    assert id[..|lbl|] == lbl;
    ParseNatToStr(i);
  }

  /** Two ids are equal only for the same label and the same ordinal; in particular
      the ids of one call are pairwise distinct, and two files with different
      non-empty names never share an id. */
  lemma IdInjective(f: Option<string>, i: nat, g: Option<string>, j: nat)
    ensures IdFor(f, i) == IdFor(g, j) <==> OrDefault(f, "chunk") == OrDefault(g, "chunk") && i == j
  {
    IdRoundTrip(f, i);
    IdRoundTrip(g, j);
  }

  /** The records `upsert_embeddings` builds: chunks and embeddings zipped (so the
      shorter one decides the count) and numbered from 0. */
  function RecordsFor(chunks: seq<string>, embeddings: seq<Vector>, fileName: Option<string>): seq<Record>
  {
    var n := if |chunks| <= |embeddings| then |chunks| else |embeddings|;
    seq(n, i requires 0 <= i < n =>
      Record(IdFor(fileName, i), embeddings[i], Metadata(chunks[i], OrDefault(fileName, "unknown"))))
  }

  function IdsOf(vs: seq<Record>): set<string>
  {
    set i | 0 <= i < |vs| :: vs[i].id
  }

  /** The ids `n` records from one file get. */
  function IdSet(fileName: Option<string>, n: nat): set<string>
  {
    set i | 0 <= i < n :: IdFor(fileName, i)
  }

  predicate DistinctIds(vs: seq<Record>)
  {
    forall i, j :: 0 <= i < j < |vs| ==> vs[i].id != vs[j].id
  }

  /** What each record holds: zip truncation decides the count, record i carries
      chunk i as its text, the file name (or "unknown") as its source, embedding i
      unchanged as its values (so of the same length), and the id of ordinal i. */
  lemma RecordsForShape(chunks: seq<string>, embeddings: seq<Vector>, fileName: Option<string>)
    ensures var vs := RecordsFor(chunks, embeddings, fileName);
      && |vs| == (if |chunks| <= |embeddings| then |chunks| else |embeddings|)
      && forall i :: 0 <= i < |vs| ==>
           && vs[i].id == IdFor(fileName, i)
           && vs[i].metadata == Metadata(chunks[i], OrDefault(fileName, "unknown"))
           && vs[i].values == embeddings[i] && |vs[i].values| == |embeddings[i]|
  {
  }

  /** The ids of one call are pairwise distinct and are exactly the ids of ordinals
      0 .. n-1, so they depend only on the file name and the count. */
  lemma RecordsForIds(chunks: seq<string>, embeddings: seq<Vector>, fileName: Option<string>)
    ensures var vs := RecordsFor(chunks, embeddings, fileName);
      DistinctIds(vs) && IdsOf(vs) == IdSet(fileName, |vs|)
  {
    var vs := RecordsFor(chunks, embeddings, fileName);
    forall i, j | 0 <= i < j < |vs|
      ensures vs[i].id != vs[j].id
    {
      IdInjective(fileName, i, fileName, j);
    }
    forall x | x in IdSet(fileName, |vs|)
      ensures x in IdsOf(vs)
    {
      var i :| 0 <= i < |vs| && x == IdFor(fileName, i);
      assert vs[i].id == x;
    }
  }

  /** `upsert_embeddings`' loop: append one record per (chunk, embedding) pair. */
  method BuildRecords(chunks: seq<string>, embeddings: seq<Vector>, fileName: Option<string>)
    returns (vectors: seq<Record>)
    ensures vectors == RecordsFor(chunks, embeddings, fileName)
    ensures |vectors| <= |chunks| && |vectors| <= |embeddings|
    ensures DistinctIds(vectors)
  {
    vectors := [];
    var i := 0;
    while i < |chunks| && i < |embeddings|
      invariant i <= |chunks| && i <= |embeddings|
      invariant |vectors| == i
      invariant forall j :: 0 <= j < i ==>
        vectors[j] == Record(IdFor(fileName, j), embeddings[j], Metadata(chunks[j], OrDefault(fileName, "unknown")))
    {
      vectors := vectors + [Record(IdFor(fileName, i), embeddings[i], Metadata(chunks[i], OrDefault(fileName, "unknown")))];
      i := i + 1;
    }
    RecordsForIds(chunks, embeddings, fileName);
  }

  /** The store's upsert: each record replaces whatever was stored under its id
      (later records of the same batch win). */
  function ApplyUpserts(m: map<string, Record>, vs: seq<Record>): map<string, Record>
  {
    if vs == [] then m
    else
      var n := |vs| - 1;
      ApplyUpserts(m, vs[..n])[vs[n].id := vs[n]]
  }

  /** Upsert adds exactly the batch's ids to the keys; a batch with distinct ids
      stores each record under its id and leaves every other key alone. */
  lemma ApplyUpsertsSpec(m: map<string, Record>, vs: seq<Record>)
    requires DistinctIds(vs)
    ensures var m' := ApplyUpserts(m, vs);
      && m'.Keys == m.Keys + IdsOf(vs)
      && (forall i :: 0 <= i < |vs| ==> m'[vs[i].id] == vs[i])
      && (forall k :: k in m && k !in IdsOf(vs) ==> m'[k] == m[k])
  {
    ApplyUpsertsKeys(m, vs);
    ApplyUpsertsStores(m, vs);
    ApplyUpsertsKeepsOthers(m, vs);
  }

  /** The keys after an upsert are the old keys and the batch's ids. */
  lemma {:induction false} ApplyUpsertsKeys(m: map<string, Record>, vs: seq<Record>)
    ensures ApplyUpserts(m, vs).Keys == m.Keys + IdsOf(vs)
  {
    if vs != [] {
      ApplyUpsertsKeys(m, vs[..|vs| - 1]);
      IdsOfSnoc(vs);
    }
  }

  /** With distinct ids, every record of the batch is stored under its id. */
  lemma {:induction false} ApplyUpsertsStores(m: map<string, Record>, vs: seq<Record>)
    requires DistinctIds(vs)
    ensures forall i :: 0 <= i < |vs| ==> vs[i].id in ApplyUpserts(m, vs) && ApplyUpserts(m, vs)[vs[i].id] == vs[i]
  {
    ApplyUpsertsKeys(m, vs);
    if vs != [] {
      var n := |vs| - 1;
      var init := vs[..n];
      assert DistinctIds(init) by {
        forall i, j | 0 <= i < j < n
          ensures init[i].id != init[j].id
        {
          assert init[i] == vs[i] && init[j] == vs[j];
        }
      }
      ApplyUpsertsStores(m, init);
      ApplyUpsertsKeys(m, init);
      forall i | 0 <= i < n
        ensures ApplyUpserts(m, vs)[vs[i].id] == vs[i]
      {
        assert init[i] == vs[i];
        assert vs[i].id != vs[n].id;
      }
    }
  }

  /** A key outside the batch keeps its value. */
  lemma {:induction false} ApplyUpsertsKeepsOthers(m: map<string, Record>, vs: seq<Record>)
    ensures forall k :: k in m && k !in IdsOf(vs) ==> k in ApplyUpserts(m, vs) && ApplyUpserts(m, vs)[k] == m[k]
  {
    ApplyUpsertsKeys(m, vs);
    if vs != [] {
      var n := |vs| - 1;
      ApplyUpsertsKeepsOthers(m, vs[..n]);
      ApplyUpsertsKeys(m, vs[..n]);
      IdsOfSnoc(vs);
    }
  }

  /** The ids of a batch are those of all but its last record, plus the last one's. */
  lemma IdsOfSnoc(vs: seq<Record>)
    requires vs != []
    ensures IdsOf(vs) == IdsOf(vs[..|vs| - 1]) + {vs[|vs| - 1].id}
  {
    var n := |vs| - 1;
    var init := vs[..n];
    forall x | x in IdsOf(vs)
      ensures x in IdsOf(init) + {vs[n].id}
    {
      var i :| 0 <= i < |vs| && vs[i].id == x;
      if i < n { assert init[i] == vs[i]; }
    }
    forall x | x in IdsOf(init)
      ensures x in IdsOf(vs)
    {
      var i :| 0 <= i < n && init[i].id == x;
      assert vs[i] == init[i];
    }
  }

  /** Re-ingesting overwrites: after a batch whose ids cover those of an earlier
      batch, the earlier batch leaves no trace. */
  lemma ReingestReplaces(m: map<string, Record>, first: seq<Record>, second: seq<Record>)
    requires DistinctIds(first) && DistinctIds(second)
    requires IdsOf(first) <= IdsOf(second)
    ensures ApplyUpserts(ApplyUpserts(m, first), second) == ApplyUpserts(m, second)
  {
    var m1 := ApplyUpserts(m, first);
    ApplyUpsertsSpec(m, first);
    ApplyUpsertsSpec(m1, second);
    ApplyUpsertsSpec(m, second);
    var a, b := ApplyUpserts(m1, second), ApplyUpserts(m, second);
    forall k | k in a
      ensures k in b && a[k] == b[k]
    {
      if k in IdsOf(second) {
        var i :| 0 <= i < |second| && second[i].id == k;
      }
    }
  }

  /** Ingesting a file twice with the same number of records gives the same entries
      as ingesting it once with the second records: no id is duplicated, none is
      added, and the entry count does not grow. */
  lemma ReingestSameFile(m: map<string, Record>, fileName: Option<string>,
                         chunks1: seq<string>, embeddings1: seq<Vector>,
                         chunks2: seq<string>, embeddings2: seq<Vector>)
    requires |RecordsFor(chunks1, embeddings1, fileName)| == |RecordsFor(chunks2, embeddings2, fileName)|
    ensures var r1, r2 := RecordsFor(chunks1, embeddings1, fileName), RecordsFor(chunks2, embeddings2, fileName);
      && ApplyUpserts(ApplyUpserts(m, r1), r2) == ApplyUpserts(m, r2)
      && ApplyUpserts(ApplyUpserts(m, r1), r2).Keys == ApplyUpserts(m, r1).Keys
  {
    var r1, r2 := RecordsFor(chunks1, embeddings1, fileName), RecordsFor(chunks2, embeddings2, fileName);
    RecordsForIds(chunks1, embeddings1, fileName);
    RecordsForIds(chunks2, embeddings2, fileName);
    ReingestReplaces(m, r1, r2);
    ApplyUpsertsSpec(m, r1);
    ApplyUpsertsSpec(m, r2);
  }

  /** Re-ingesting a file that now yields fewer records leaves the old records with
      the higher ordinals in the index: overwriting does not delete. */
  lemma ShrunkReingestLeavesStale(m: map<string, Record>, fileName: Option<string>,
                                  chunks1: seq<string>, embeddings1: seq<Vector>,
                                  chunks2: seq<string>, embeddings2: seq<Vector>, i: nat)
    requires |RecordsFor(chunks2, embeddings2, fileName)| <= i < |RecordsFor(chunks1, embeddings1, fileName)|
    ensures var r1, r2 := RecordsFor(chunks1, embeddings1, fileName), RecordsFor(chunks2, embeddings2, fileName);
      var m' := ApplyUpserts(ApplyUpserts(m, r1), r2);
      IdFor(fileName, i) in m' && m'[IdFor(fileName, i)] == r1[i]
  {
    var r1, r2 := RecordsFor(chunks1, embeddings1, fileName), RecordsFor(chunks2, embeddings2, fileName);
    RecordsForIds(chunks1, embeddings1, fileName);
    RecordsForIds(chunks2, embeddings2, fileName);
    var m1 := ApplyUpserts(m, r1);
    ApplyUpsertsSpec(m, r1);
    ApplyUpsertsSpec(m1, r2);
    var id := IdFor(fileName, i);
    assert r1[i].id == id;
    if id in IdsOf(r2) {
      var j :| 0 <= j < |r2| && r2[j].id == id;
      IdInjective(fileName, i, fileName, j);
    }
  }

  /** `results.get("matches", [])` */
  function MatchesOf(resp: QueryResponse): (ms: seq<Match>)
    ensures resp.matches.None? ==> ms == []
    ensures resp.matches.Some? ==> ms == resp.matches.value
  {
    resp.matches.GetOr([])
  }

  /** One named index on the vector service: a key-value store with overwrite
      semantics. */
  class VectorIndex {
    const name: string
    const dimension: nat
    var entries: map<string, Record>
    /** The batches this index has been sent, in call order, accepted or not. */
    ghost var batches: seq<seq<Record>>

    constructor (name: string, dimension: nat)
      ensures this.name == name && this.dimension == dimension
      ensures entries == map[] && batches == []
    {
      this.name := name;
      this.dimension := dimension;
      entries := map[];
      batches := [];
    }

    /** `index.upsert(vectors=...)`; `accepts` says whether the remote call succeeds
        (a failed call raises and changes nothing). */
    method Upsert(vectors: seq<Record>, accepts: seq<Record> -> bool) returns (ok: bool)
      modifies this
      ensures ok == accepts(vectors)
      ensures entries == if ok then ApplyUpserts(old(entries), vectors) else old(entries)
      ensures batches == old(batches) + [vectors]
    {
      batches := batches + [vectors];
      ok := accepts(vectors);
      if ok {
        var i := 0;
        while i < |vectors|
          invariant i <= |vectors|
          invariant entries == ApplyUpserts(old(entries), vectors[..i])
          invariant batches == old(batches) + [vectors]
        {
          assert vectors[..i + 1][..i] == vectors[..i];
          entries := entries[vectors[i].id := vectors[i]];
          i := i + 1;
        }
        assert vectors[..i] == vectors;
      }
    }
  }

  /** The vector service's control plane: the indexes that exist, by name. */
  class IndexService {
    var indexes: map<string, VectorIndex>

    constructor (existing: map<string, VectorIndex>)
      ensures indexes == existing
    {
      indexes := existing;
    }

    /** `[i.name for i in pc.list_indexes()]`; `reachable` says whether the remote
        call succeeds (a failed call raises). */
    method ListIndexes(reachable: bool) returns (names: Option<set<string>>)
      ensures reachable ==> names == Some(indexes.Keys)
      ensures !reachable ==> names == None
    {
      names := if reachable then Some(indexes.Keys) else None;
    }

    /** `pc.create_index(name=..., dimension=...)`; `accepts` says whether the remote
        call succeeds (a failed call raises and creates nothing). */
    method CreateIndex(name: string, dimension: nat, accepts: bool) returns (ok: bool)
      modifies this
      ensures ok == accepts
      ensures !ok ==> indexes == old(indexes)
      ensures ok ==>
        && name in indexes && fresh(indexes[name])
        && indexes[name].name == name && indexes[name].dimension == dimension
        && indexes[name].entries == map[] && indexes[name].batches == []
        && indexes == old(indexes)[name := indexes[name]]
    {
      ok := accepts;
      if ok {
        var index := new VectorIndex(name, dimension);
        indexes := indexes[name := index];
      }
    }
  }

  class PineconeClient {
    const indexName: string
    const index: VectorIndex

    constructor (indexName: string, index: VectorIndex)
      ensures this.indexName == indexName && this.index == index
    {
      this.indexName := indexName;
      this.index := index;
    }

    /** `upsert_embeddings(chunks, embeddings, file_name)`: build the records; when
        there are none the store is not called at all, otherwise one upsert call
        carries all of them. */
    method UpsertEmbeddings(chunks: seq<string>, embeddings: seq<Vector>, fileName: Option<string>,
                            accepts: seq<Record> -> bool) returns (outcome: UpsertOutcome)
      modifies index
      ensures var vs := RecordsFor(chunks, embeddings, fileName);
        && (vs == [] ==> outcome == NothingToUpsert && index.entries == old(index.entries))
        && (vs != [] && accepts(vs) ==>
              outcome == Upserted(|vs|) && index.entries == ApplyUpserts(old(index.entries), vs))
        && (vs != [] && !accepts(vs) ==> outcome == UpsertFailed && index.entries == old(index.entries))
      ensures var vs := RecordsFor(chunks, embeddings, fileName);
        && (vs == [] ==> index.batches == old(index.batches))
        && (vs != [] ==> index.batches == old(index.batches) + [vs])
    {
      var vectors := BuildRecords(chunks, embeddings, fileName);
      if vectors != [] {
        var ok := index.Upsert(vectors, accepts);
        outcome := if ok then Upserted(|vectors|) else UpsertFailed;
      } else {
        outcome := NothingToUpsert;
      }
    }

    /** `query(query_vector, top_k)`: the remote search either raises (None) or
        answers, and the matches of its answer are returned, [] when it has none. */
    method Query(queryVector: Vector, topK: int := SearchTopK,
                 search: (map<string, Record>, Vector, int) -> Option<QueryResponse>)
      returns (matches: Option<seq<Match>>)
      ensures search(index.entries, queryVector, topK).None? ==> matches.None?
      ensures search(index.entries, queryVector, topK).Some? ==>
        matches == Some(MatchesOf(search(index.entries, queryVector, topK).value))
    {
      var response := search(index.entries, queryVector, topK);
      if response.None? {
        matches := None;
      } else {
        matches := Some(MatchesOf(response.value));
      }
    }
  }

  /** `PineconeClient()`: without an API key nothing happens; otherwise the existing
      indexes are listed, the index is created with dimension 768 only when none of
      that name exists, an existing one is reused untouched, and the client is bound
      to it. `reachable` and `accepts` say whether the listing and the creation calls
      succeed; a failing one raises out of the constructor. */
  method Connect(service: IndexService, apiKey: Option<string>, indexName: string,
                 reachable: bool, accepts: bool)
    returns (client: Result<PineconeClient, InitError>)
    modifies service
    ensures apiKey.None? || apiKey.value == "" ==>
      client == Err(MissingApiKey) && service.indexes == old(service.indexes)
    ensures apiKey.Some? && apiKey.value != "" && !reachable ==>
      client == Err(ListFailed) && service.indexes == old(service.indexes)
    ensures apiKey.Some? && apiKey.value != "" && reachable && indexName in old(service.indexes) ==>
      service.indexes == old(service.indexes)
    ensures apiKey.Some? && apiKey.value != "" && reachable && indexName !in old(service.indexes) && !accepts ==>
      client == Err(CreateFailed) && service.indexes == old(service.indexes)
    ensures apiKey.Some? && apiKey.value != "" && reachable && indexName !in old(service.indexes) && accepts ==>
      && service.indexes.Keys == old(service.indexes).Keys + {indexName}
      && (forall n :: n in old(service.indexes) ==> service.indexes[n] == old(service.indexes)[n])
      && fresh(service.indexes[indexName])
      && service.indexes[indexName].dimension == IndexDimension
      && service.indexes[indexName].entries == map[]
      && service.indexes[indexName].batches == []
    ensures apiKey.Some? && apiKey.value != "" && reachable && (indexName in old(service.indexes) || accepts) ==>
      && client.Ok? && indexName in service.indexes
      && client.value.indexName == indexName && client.value.index == service.indexes[indexName]
  {
    if apiKey.None? || apiKey.value == "" {
      return Err(MissingApiKey);
    }
    var existing := service.ListIndexes(reachable);
    if existing.None? {
      return Err(ListFailed);
    }
    if indexName !in existing.value {
      var created := service.CreateIndex(indexName, IndexDimension, accepts);
      if !created {
        return Err(CreateFailed);
      }
    }
    var c := new PineconeClient(indexName, service.indexes[indexName]);
    client := Ok(c);
  }
}
