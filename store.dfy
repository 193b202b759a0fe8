/**
 * The retrieval store: a document table, a chunk table whose ids come from an
 * AUTOINCREMENT counter that never reuses a value, and an append-only vector
 * index whose position `k` holds the vector of the `k`-th chunk row in id
 * order. The tables are sequences in ascending id order; embedding and
 * similarity ranking are parameters.
 */
module RagStore {
  import opened Records
  import Chunker
  import Context

  /** `search`'s default number of results. */
  const SearchTopK: int := 5

  /** The vectors of `rows`, in row order. */
  function Embeddings(rows: seq<ChunkRow>): seq<Vec> {
    seq(|rows|, k requires 0 <= k < |rows| => rows[k].embedding)
  }

  lemma EmbeddingsAppend(a: seq<ChunkRow>, b: seq<ChunkRow>)
    ensures Embeddings(a + b) == Embeddings(a) + Embeddings(b)
  {
    assert forall k :: 0 <= k < |a| + |b| ==> Embeddings(a + b)[k] == (Embeddings(a) + Embeddings(b))[k];
  }

  ghost predicate IdsAscending(rows: seq<ChunkRow>) {
    forall i, j :: 0 <= i < j < |rows| ==> rows[i].id < rows[j].id
  }

  ghost predicate DocIdsAscending(docs: seq<Doc>) {
    forall i, j :: 0 <= i < j < |docs| ==> docs[i].id < docs[j].id
  }

  function DocIds(docs: seq<Doc>): set<int> {
    set d | d in docs :: d.id as int
  }

  /**
   * The state invariant: ids start at 1, ascend, and stay below their
   * counters; every chunk belongs to a stored document; and the index holds
   * exactly the chunk vectors, in chunk id order.
   */
  ghost predicate Consistent(docs: seq<Doc>, chunks: seq<ChunkRow>, nextDocId: nat, nextChunkId: nat, index: seq<Vec>) {
    && 1 <= nextDocId && 1 <= nextChunkId
    && DocIdsAscending(docs)
    && (forall i :: 0 <= i < |docs| ==> 1 <= docs[i].id < nextDocId)
    && IdsAscending(chunks)
    && (forall i :: 0 <= i < |chunks| ==> 1 <= chunks[i].id < nextChunkId)
    && (forall i :: 0 <= i < |chunks| ==> chunks[i].documentId in DocIds(docs))
    && index == Embeddings(chunks)
  }

  // ----- Filters over the tables (SQL WHERE clauses and DELETE statements) -----

  /** The elements of `xs` that satisfy `keep`, in order. */
  function Keep<T>(xs: seq<T>, keep: T -> bool): seq<T> {
    if xs == [] then []
    else Keep(xs[..|xs| - 1], keep) + (if keep(xs[|xs| - 1]) then [xs[|xs| - 1]] else [])
  }

  lemma {:induction false} KeepMember<T>(xs: seq<T>, keep: T -> bool, x: T)
    ensures x in Keep(xs, keep) <==> x in xs && keep(x)
  {
    if xs != [] {
      KeepMember(xs[..|xs| - 1], keep, x);
      assert xs == xs[..|xs| - 1] + [xs[|xs| - 1]];
    }
  }

  /** Filters that agree on every element select the same elements. */
  lemma {:induction false} KeepAgree<T>(xs: seq<T>, p: T -> bool, q: T -> bool)
    requires forall i :: 0 <= i < |xs| ==> p(xs[i]) == q(xs[i])
    ensures Keep(xs, p) == Keep(xs, q)
  {
    if xs != [] {
      KeepAgree(xs[..|xs| - 1], p, q);
    }
  }

  lemma {:induction false} KeepAll<T>(xs: seq<T>, p: T -> bool)
    requires forall i :: 0 <= i < |xs| ==> p(xs[i])
    ensures Keep(xs, p) == xs
  {
    if xs != [] {
      KeepAll(xs[..|xs| - 1], p);
      assert xs == xs[..|xs| - 1] + [xs[|xs| - 1]];
    }
  }

  lemma {:induction false} KeepRowsAscending(rows: seq<ChunkRow>, keep: ChunkRow -> bool)
    requires IdsAscending(rows)
    ensures IdsAscending(Keep(rows, keep))
  {
    if rows != [] {
      var pre, last := rows[..|rows| - 1], rows[|rows| - 1];
      KeepRowsAscending(pre, keep);
      var kp := Keep(pre, keep);
      forall i | 0 <= i < |kp|
        ensures kp[i].id < last.id
      {
        KeepMember(pre, keep, kp[i]);
        var j :| 0 <= j < |pre| && pre[j] == kp[i];
        assert rows[j] == kp[i];
      }
    }
  }

  lemma {:induction false} KeepDocsAscending(docs: seq<Doc>, keep: Doc -> bool)
    requires DocIdsAscending(docs)
    ensures DocIdsAscending(Keep(docs, keep))
  {
    if docs != [] {
      var pre, last := docs[..|docs| - 1], docs[|docs| - 1];
      KeepDocsAscending(pre, keep);
      var kp := Keep(pre, keep);
      forall i | 0 <= i < |kp|
        ensures kp[i].id < last.id
      {
        KeepMember(pre, keep, kp[i]);
        var j :| 0 <= j < |pre| && pre[j] == kp[i];
        assert docs[j] == kp[i];
      }
    }
  }

  /** `DELETE FROM chunks WHERE document_id = ?`: the rows of the other documents. */
  function OtherDocsRows(rows: seq<ChunkRow>, docId: int): seq<ChunkRow> {
    Keep(rows, (r: ChunkRow) => r.documentId as int != docId)
  }

  /** `DELETE FROM documents WHERE id = ?`. */
  function DocsWithout(docs: seq<Doc>, docId: int): seq<Doc> {
    Keep(docs, (d: Doc) => d.id as int != docId)
  }

  /** `WHERE id NOT IN (...)` over the chunk table. */
  function RowsExcluding(rows: seq<ChunkRow>, ids: seq<int>): seq<ChunkRow> {
    Keep(rows, (r: ChunkRow) => r.id as int !in ids)
  }

  /** `SELECT id FROM chunks WHERE document_id = ?`. */
  function ChunkIdsOf(rows: seq<ChunkRow>, docId: int): (ids: seq<int>)
    ensures forall id :: id in ids <==> exists i :: 0 <= i < |rows| && rows[i].documentId == docId && rows[i].id == id
  {
    if rows == [] then []
    else
      var last := rows[|rows| - 1];
      ChunkIdsOf(rows[..|rows| - 1], docId) + (if last.documentId == docId then [last.id as int] else [])
  }

  /** With unique chunk ids, excluding a document's chunk ids is deleting that document's rows. */
  lemma ExcludingOwnIdsIsDeletingRows(rows: seq<ChunkRow>, docId: int)
    requires IdsAscending(rows)
    ensures RowsExcluding(rows, ChunkIdsOf(rows, docId)) == OtherDocsRows(rows, docId)
  {
    var ids := ChunkIdsOf(rows, docId);
    forall i | 0 <= i < |rows|
      ensures (rows[i].id as int !in ids) == (rows[i].documentId as int != docId)
    {
      if rows[i].id as int in ids {
        var j :| 0 <= j < |rows| && rows[j].documentId == docId && rows[j].id == rows[i].id;
        assert i == j;
      }
    }
    KeepAgree(rows, (r: ChunkRow) => r.id as int !in ids, (r: ChunkRow) => r.documentId as int != docId);
  }

  /** Deleting a stored document removes exactly one row; deleting an unknown id removes none. */
  lemma {:induction false} DocsWithoutCount(docs: seq<Doc>, docId: int)
    requires DocIdsAscending(docs)
    ensures |DocsWithout(docs, docId)| == |docs| - (if docId in DocIds(docs) then 1 else 0)
  {
    if docs != [] {
      var pre, last := docs[..|docs| - 1], docs[|docs| - 1];
      DocsWithoutCount(pre, docId);
      assert docs == pre + [last];
      assert DocIds(docs) == DocIds(pre) + {last.id as int};
      if last.id as int == docId {
        assert docId !in DocIds(pre);
      }
    }
  }

  // ----- Lookup by id (SQL `WHERE id = ?`) -----

  function RowWithId(rows: seq<ChunkRow>, id: int): (r: Option<ChunkRow>)
    ensures r.Some? ==> r.value in rows && r.value.id as int == id
    ensures r.None? ==> forall i :: 0 <= i < |rows| ==> rows[i].id as int != id
    decreases |rows|
  {
    if rows == [] then None
    else if rows[0].id as int == id then Some(rows[0])
    else RowWithId(rows[1..], id)
  }

  function DocWithId(docs: seq<Doc>, id: int): (r: Option<Doc>)
    ensures r.Some? <==> id in DocIds(docs)
    ensures r.Some? ==> r.value in docs && r.value.id as int == id
    decreases |docs|
  {
    if docs == [] then None
    else if docs[0].id as int == id then Some(docs[0])
    else
      var r := DocWithId(docs[1..], id);
      assert DocIds(docs) == {docs[0].id as int} + DocIds(docs[1..]) by {
        assert docs == [docs[0]] + docs[1..];
      }
      r
  }

  /** With ascending ids, looking a row's own id up finds that row. */
  lemma {:induction false} RowWithIdFinds(rows: seq<ChunkRow>, k: nat)
    requires IdsAscending(rows) && k < |rows|
    ensures RowWithId(rows, rows[k].id as int) == Some(rows[k])
    decreases k
  {
    if k > 0 {
      assert rows[0].id < rows[k].id;
      RowWithIdFinds(rows[1..], k - 1);
    }
  }

  // ----- Resolving the index's ranking into results -----

  /**
   * The row `search` reads for each hit, as written: position `p` is looked up
   * as chunk id `p + 1`, and position -1 is skipped.
   */
  function IdRows(hits: seq<Hit>, chunks: seq<ChunkRow>): (rows: seq<Option<ChunkRow>>)
    ensures |rows| == |hits|
  {
    seq(|hits|, i requires 0 <= i < |hits| =>
      if hits[i].position == -1 then None else RowWithId(chunks, hits[i].position + 1))
  }

  /** The row whose vector sits at each hit's index position. */
  function PositionRows(hits: seq<Hit>, chunks: seq<ChunkRow>): (rows: seq<Option<ChunkRow>>)
    ensures |rows| == |hits|
  {
    seq(|hits|, i requires 0 <= i < |hits| =>
      if 0 <= hits[i].position < |chunks| then Some(chunks[hits[i].position]) else None)
  }

  function InfoOrEmpty(info: Option<Info>): Info {
    if info.Some? then info.value else map[]
  }

  /** `json.dumps(extracted_info) if extracted_info else None`: an empty dictionary is stored as NULL. */
  function StoredInfo(info: Option<Info>): Option<Info> {
    if info.Some? && info.value != map[] then info else None
  }

  /** The result one hit contributes: nothing when its row or the row's document is missing. */
  function ResultFor(h: Hit, row: Option<ChunkRow>, docs: seq<Doc>): seq<SearchResult> {
    if row.None? then []
    else match DocWithId(docs, row.value.documentId)
      case None => []
      case Some(d) => [SearchResult(row.value.text, h.score, d.filename, row.value.chunkSize, InfoOrEmpty(d.extractedInfo))]
  }

  /** The results of a ranking whose hits read `rows`, in ranking order. */
  function Resolve(hits: seq<Hit>, rows: seq<Option<ChunkRow>>, docs: seq<Doc>): seq<SearchResult>
    requires |rows| == |hits|
  {
    if hits == [] then []
    else Resolve(hits[..|hits| - 1], rows[..|hits| - 1], docs) + ResultFor(hits[|hits| - 1], rows[|hits| - 1], docs)
  }

  lemma ResolveSnoc(hits: seq<Hit>, rows: seq<Option<ChunkRow>>, docs: seq<Doc>, i: nat)
    requires |rows| == |hits| && i < |hits|
    ensures Resolve(hits[..i + 1], rows[..i + 1], docs) == Resolve(hits[..i], rows[..i], docs) + ResultFor(hits[i], rows[i], docs)
  {
    assert hits[..i + 1][..i] == hits[..i];
    assert rows[..i + 1][..i] == rows[..i];
  }

  /** A ranking yields at most one result per hit. */
  lemma {:induction false} ResolveAtMostOnePerHit(hits: seq<Hit>, rows: seq<Option<ChunkRow>>, docs: seq<Doc>)
    requires |rows| == |hits|
    ensures |Resolve(hits, rows, docs)| <= |hits|
  {
    if hits != [] {
      ResolveAtMostOnePerHit(hits[..|hits| - 1], rows[..|hits| - 1], docs);
    }
  }

  /**
   * When every hit reads a row whose document is stored, there is exactly one
   * result per hit, in ranking order, carrying that row's text and the hit's score.
   */
  lemma {:induction false} ResolveOnePerHit(hits: seq<Hit>, rows: seq<Option<ChunkRow>>, docs: seq<Doc>)
    requires |rows| == |hits|
    requires forall i :: 0 <= i < |rows| ==> rows[i].Some? && rows[i].value.documentId as int in DocIds(docs)
    ensures |Resolve(hits, rows, docs)| == |hits|
    ensures forall i :: 0 <= i < |hits| ==>
      Resolve(hits, rows, docs)[i].chunkText == rows[i].value.text &&
      Resolve(hits, rows, docs)[i].score == hits[i].score &&
      Resolve(hits, rows, docs)[i].chunkSize == rows[i].value.chunkSize
  {
    if hits != [] {
      var n := |hits| - 1;
      ResolveOnePerHit(hits[..n], rows[..n], docs);
      var r := Resolve(hits, rows, docs);
      var p := Resolve(hits[..n], rows[..n], docs);
      assert r == p + ResultFor(hits[n], rows[n], docs);
      forall i | 0 <= i < n
        ensures r[i] == p[i]
      {
      }
    }
  }

  /**
   * Position `k` resolves to the row whose vector is at position `k` (chunk
   * ids ascending) exactly when the chunk ids are `1..|chunks|`.
   */
  lemma PositionLookupIffDenseIds(chunks: seq<ChunkRow>)
    requires IdsAscending(chunks)
    ensures (forall k :: 0 <= k < |chunks| ==> RowWithId(chunks, k + 1) == Some(chunks[k])) <==>
            (forall k :: 0 <= k < |chunks| ==> chunks[k].id == k + 1)
  {
    if forall k :: 0 <= k < |chunks| ==> chunks[k].id == k + 1 {
      forall k | 0 <= k < |chunks|
        ensures RowWithId(chunks, k + 1) == Some(chunks[k])
      {
        RowWithIdFinds(chunks, k);
      }
    }
  }

  /** While chunk ids are `1..|chunks|`, the as-written lookup reads the row at every hit's position. */
  lemma DenseIdsLookupByPosition(hits: seq<Hit>, chunks: seq<ChunkRow>)
    requires forall k :: 0 <= k < |chunks| ==> chunks[k].id == k + 1
    ensures IdRows(hits, chunks) == PositionRows(hits, chunks)
  {
    assert IdsAscending(chunks);
    forall i | 0 <= i < |hits|
      ensures IdRows(hits, chunks)[i] == PositionRows(hits, chunks)[i]
    {
      var p := hits[i].position;
      if 0 <= p < |chunks| {
        RowWithIdFinds(chunks, p);
      }
    }
  }

  /**
   * Once the ids are not `1..|chunks|` (here: chunk 1 deleted), the as-written
   * lookup drops position 0 and answers position 1 with the row whose vector
   * sits at position 0.
   */
  lemma PositionPlusOneMisreads(r2: ChunkRow, r3: ChunkRow)
    requires r2.id == 2 && r3.id == 3
    ensures RowWithId([r2, r3], 0 + 1) == None
    ensures RowWithId([r2, r3], 1 + 1) == Some(r2) && r2 != r3
  {
  }

  /** One chunk row per chunk, ids from `firstId`, `chunk_index` `0..n-1`, in chunk order. */
  function NewRows(firstId: nat, docId: nat, cs: seq<string>, embed: string -> Vec): seq<ChunkRow> {
    seq(|cs|, i requires 0 <= i < |cs| => ChunkRow(firstId + i, docId, cs[i], i, embed(cs[i]), |cs[i]|))
  }

  /** `search`'s loop over the ranking: one result per hit whose row and document are found. */
  method Collect(hits: seq<Hit>, rows: seq<Option<ChunkRow>>, docs: seq<Doc>) returns (results: seq<SearchResult>)
    requires |rows| == |hits|
    ensures results == Resolve(hits, rows, docs)
    ensures |results| <= |hits|
  {
    results := [];
    var i := 0;
    while i < |hits|
      invariant 0 <= i <= |hits|
      invariant results == Resolve(hits[..i], rows[..i], docs)
    {
      ResolveSnoc(hits, rows, docs, i);
      var row := rows[i];
      if row.Some? {
        var d := DocWithId(docs, row.value.documentId);
        if d.Some? {
          results := results + [SearchResult(row.value.text, hits[i].score, d.value.filename, row.value.chunkSize, InfoOrEmpty(d.value.extractedInfo))];
        }
      }
      i := i + 1;
    }
    assert hits[..i] == hits && rows[..i] == rows;
    ResolveAtMostOnePerHit(hits, rows, docs);
  }

  class RagSystem {
    var docs: seq<Doc>
    var chunks: seq<ChunkRow>
    var nextDocId: nat
    var nextChunkId: nat
    var index: seq<Vec>

    ghost predicate Valid()
      reads this
    {
      Consistent(docs, chunks, nextDocId, nextChunkId, index)
    }

    /** Chunk ids are exactly `1..|index|` and the next one is `|index| + 1`. */
    ghost predicate IdsDense()
      reads this
    {
      DenseIds(chunks, nextChunkId)
    }

    constructor ()
      ensures Valid() && IdsDense()
      ensures docs == [] && chunks == [] && index == [] && nextDocId == 1
    {
      docs, chunks, index := [], [], [];
      nextDocId, nextChunkId := 1, 1;
    }

    /**
     * Stores the document under a fresh id, then one chunk row per chunk of
     * its content and, in the same order, one vector per chunk.
     */
    method AddDocument(filename: string, content: string, info: Option<Info>, embed: string -> Vec) returns (docId: nat)
      requires Valid()
      modifies this
      ensures Valid()
      ensures docId == old(nextDocId) && nextDocId == old(nextDocId) + 1
      ensures docs == old(docs) + [Doc(docId, filename, content, StoredInfo(info))]
      ensures var cs := Chunker.Chunks(content, Chunker.DefaultChunkSize, Chunker.DefaultOverlap);
              && chunks == old(chunks) + NewRows(old(nextChunkId), docId, cs, embed)
              && index == old(index) + Embeddings(NewRows(old(nextChunkId), docId, cs, embed))
              && nextChunkId == old(nextChunkId) + |cs|
      ensures old(IdsDense()) ==> IdsDense()
    {
      docId := nextDocId;
      AddDocKeepsConsistent(docs, chunks, nextDocId, nextChunkId, index, Doc(docId, filename, content, StoredInfo(info)));
      docs := docs + [Doc(docId, filename, content, StoredInfo(info))];
      nextDocId := nextDocId + 1;
      var cs := Chunker.ChunkText(content, Chunker.DefaultChunkSize, Chunker.DefaultOverlap);
      var vectors := seq(|cs|, k requires 0 <= k < |cs| => embed(cs[k]));
      StoreChunks(docId, cs, vectors, embed);
    }

    /**
     * `add_document`'s loop: one chunk row per chunk, with `chunk_index` `i`,
     * and the chunk's vector appended to the index right after its row.
     */
    method StoreChunks(docId: nat, cs: seq<string>, vectors: seq<Vec>, ghost embed: string -> Vec)
      requires Valid() && docId in DocIds(docs)
      requires |vectors| == |cs| && forall k :: 0 <= k < |cs| ==> vectors[k] == embed(cs[k])
      modifies this
      ensures Valid()
      ensures docs == old(docs) && nextDocId == old(nextDocId)
      ensures chunks == old(chunks) + NewRows(old(nextChunkId), docId, cs, embed)
      ensures index == old(index) + Embeddings(NewRows(old(nextChunkId), docId, cs, embed))
      ensures nextChunkId == old(nextChunkId) + |cs|
      ensures old(IdsDense()) ==> IdsDense()
    {
      ghost var dense := IdsDense();
      ghost var chunks0, first := chunks, nextChunkId;
      ghost var rows := NewRows(first, docId, cs, embed);
      var i := 0;
      while i < |cs|
        invariant i <= |cs| && docs == old(docs) && nextDocId == old(nextDocId)
        invariant Appending(docs, chunks, nextDocId, nextChunkId, index, chunks0, rows, first, i, dense)
        decreases |cs| - i
      {
        var row := ChunkRow(nextChunkId, docId, cs[i], i, vectors[i], |cs[i]|);
        AppendingStep(docs, chunks, nextDocId, nextChunkId, index, chunks0, rows, first, i, dense);
        chunks := chunks + [row];
        index := index + [vectors[i]];
        nextChunkId := nextChunkId + 1;
        i := i + 1;
      }
      assert rows[..i] == rows;
      EmbeddingsAppend(chunks0, rows);
    }

    /** `search`, as written: position `p` of the ranking is read as chunk id `p + 1`. */
    method Search(topK: int, hits: seq<Hit>) returns (results: seq<SearchResult>)
      requires |index| > 0 ==> topK > 0 && |hits| == Chunker.Min(topK, |index|)
      ensures |index| == 0 ==> results == []
      ensures |index| > 0 ==> results == Resolve(hits, IdRows(hits, chunks), docs)
      ensures |index| > 0 ==> |results| <= Chunker.Min(topK, |index|)
    {
      if |index| == 0 {
        return [];
      }
      results := Collect(hits, IdRows(hits, chunks), docs);
    }

    /** `search` with each position read as the row whose vector sits there. */
    method SearchByPosition(topK: int, hits: seq<Hit>) returns (results: seq<SearchResult>)
      requires |index| > 0 ==> topK > 0 && |hits| == Chunker.Min(topK, |index|)
      ensures |index| == 0 ==> results == []
      ensures |index| > 0 ==> results == Resolve(hits, PositionRows(hits, chunks), docs)
      ensures |index| > 0 ==> |results| <= Chunker.Min(topK, |index|)
    {
      if |index| == 0 {
        return [];
      }
      results := Collect(hits, PositionRows(hits, chunks), docs);
    }

    /** The context for a query whose ranking is `hits`, built from the top three results of `search`. */
    method GetContextForQuery(maxLen: int, hits: seq<Hit>) returns (context: string)
      requires |index| > 0 ==> |hits| == Chunker.Min(Context.ContextTopK, |index|)
      ensures |index| == 0 ==> context == Context.NoContext
      ensures |index| > 0 ==> context == Context.ContextFor(Resolve(hits, IdRows(hits, chunks), docs), maxLen)
    {
      var results := Search(Context.ContextTopK, hits);
      context := Context.Assemble(results, maxLen);
    }

    /** The same context built on the corrected, position-based lookup. */
    method GetContextForQueryByPosition(maxLen: int, hits: seq<Hit>) returns (context: string)
      requires |index| > 0 ==> |hits| == Chunker.Min(Context.ContextTopK, |index|)
      ensures |index| == 0 ==> context == Context.NoContext
      ensures |index| > 0 ==> context == Context.ContextFor(Resolve(hits, PositionRows(hits, chunks), docs), maxLen)
    {
      var results := SearchByPosition(Context.ContextTopK, hits);
      context := Context.Assemble(results, maxLen);
    }

    method GetDocumentCount() returns (n: nat)
      ensures n == |docs|
    {
      n := |docs|;
    }

    /**
     * Replaces the index by the vectors of the rows whose id is not in
     * `excludeIds`, read in ascending chunk id order.
     */
    method RebuildIndexExcludingChunks(excludeIds: seq<int>)
      requires IdsAscending(chunks)
      modifies this
      ensures index == Embeddings(RowsExcluding(chunks, excludeIds))
      ensures IdsAscending(RowsExcluding(chunks, excludeIds))
      ensures docs == old(docs) && chunks == old(chunks)
      ensures nextDocId == old(nextDocId) && nextChunkId == old(nextChunkId)
    {
      var vectors: seq<Vec> := [];
      var i := 0;
      while i < |chunks|
        invariant 0 <= i <= |chunks|
        invariant vectors == Embeddings(RowsExcluding(chunks[..i], excludeIds))
        invariant unchanged(this)
      {
        assert chunks[..i + 1][..i] == chunks[..i];
        EmbeddingsAppend(RowsExcluding(chunks[..i], excludeIds), [chunks[i]]);
        if chunks[i].id as int !in excludeIds {
          vectors := vectors + [chunks[i].embedding];
        }
        i := i + 1;
      }
      assert chunks[..i] == chunks;
      if |vectors| > 0 {
        index := vectors;
      } else {
        index := [];
      }
      KeepRowsAscending(chunks, (r: ChunkRow) => r.id as int !in excludeIds);
    }

    /**
     * Deletes the document and its chunk rows; the index is rebuilt only when
     * the document has chunks. Always reports success.
     */
    method DeleteDocument(docId: int) returns (ok: bool)
      requires Valid()
      modifies this
      ensures Valid() && ok
      ensures docs == DocsWithout(old(docs), docId) && chunks == OtherDocsRows(old(chunks), docId)
      ensures |docs| == |old(docs)| - (if docId in DocIds(old(docs)) then 1 else 0)
      ensures ChunkIdsOf(old(chunks), docId) == [] ==> index == old(index)
      ensures nextDocId == old(nextDocId) && nextChunkId == old(nextChunkId)
    {
      var ids := ChunkIdsOf(chunks, docId);
      if |ids| > 0 {
        RebuildIndexExcludingChunks(ids);
        ExcludingOwnIdsIsDeletingRows(chunks, docId);
      } else {
        forall i | 0 <= i < |chunks|
          ensures chunks[i].documentId as int != docId
        {
          assert chunks[i].id as int !in ids;
        }
        KeepAll(chunks, (r: ChunkRow) => r.documentId as int != docId);
      }
      DeleteKeepsConsistent(docs, chunks, nextDocId, nextChunkId, docId);
      DocsWithoutCount(docs, docId);
      chunks := OtherDocsRows(chunks, docId);
      docs := DocsWithout(docs, docId);
      ok := true;
    }

    /** Empties both tables and the index; the id counters are not reset. */
    method ClearAll()
      requires Valid()
      modifies this
      ensures Valid()
      ensures docs == [] && chunks == [] && index == []
      ensures nextDocId == old(nextDocId) && nextChunkId == old(nextChunkId)
    {
      chunks := [];
      docs := [];
      index := [];
    }
  }

  // ----- The invariant across each change of state -----

  /** Chunk ids are exactly `1..|chunks|` and the next one is `|chunks| + 1`. */
  ghost predicate DenseIds(chunks: seq<ChunkRow>, nextChunkId: nat) {
    && nextChunkId == |chunks| + 1
    && forall k :: 0 <= k < |chunks| ==> chunks[k].id == k + 1
  }

  /** `add_document`'s loop after `i` of the new `rows` have been stored. */
  ghost predicate Appending(docs: seq<Doc>, chunks: seq<ChunkRow>, nextDocId: nat, nextChunkId: nat, index: seq<Vec>,
                            chunks0: seq<ChunkRow>, rows: seq<ChunkRow>, first: nat, i: nat, dense: bool)
  {
    && i <= |rows|
    && chunks == chunks0 + rows[..i] && nextChunkId == first + i
    && Consistent(docs, chunks, nextDocId, nextChunkId, index)
    && (dense ==> DenseIds(chunks, nextChunkId))
  }

  lemma AppendingStep(docs: seq<Doc>, chunks: seq<ChunkRow>, nextDocId: nat, nextChunkId: nat, index: seq<Vec>,
                      chunks0: seq<ChunkRow>, rows: seq<ChunkRow>, first: nat, i: nat, dense: bool)
    requires Appending(docs, chunks, nextDocId, nextChunkId, index, chunks0, rows, first, i, dense)
    requires i < |rows| && rows[i].id == first + i && rows[i].documentId as int in DocIds(docs)
    ensures Appending(docs, chunks + [rows[i]], nextDocId, nextChunkId + 1, index + [rows[i].embedding],
                      chunks0, rows, first, i + 1, dense)
  {
    AddRowKeepsConsistent(docs, chunks, nextDocId, nextChunkId, index, rows[i]);
    assert rows[..i + 1] == rows[..i] + [rows[i]];
  }

  lemma AddDocKeepsConsistent(docs: seq<Doc>, chunks: seq<ChunkRow>, nextDocId: nat, nextChunkId: nat, index: seq<Vec>, d: Doc)
    requires Consistent(docs, chunks, nextDocId, nextChunkId, index)
    requires d.id == nextDocId
    ensures Consistent(docs + [d], chunks, nextDocId + 1, nextChunkId, index)
  {
    assert DocIds(docs) <= DocIds(docs + [d]);
  }

  lemma AddRowKeepsConsistent(docs: seq<Doc>, chunks: seq<ChunkRow>, nextDocId: nat, nextChunkId: nat, index: seq<Vec>, row: ChunkRow)
    requires Consistent(docs, chunks, nextDocId, nextChunkId, index)
    requires row.id == nextChunkId >= 1 && row.documentId as int in DocIds(docs)
    ensures Consistent(docs, chunks + [row], nextDocId, nextChunkId + 1, index + [row.embedding])
  {
    EmbeddingsAppend(chunks, [row]);
  }

  lemma DeleteKeepsConsistent(docs: seq<Doc>, chunks: seq<ChunkRow>, nextDocId: nat, nextChunkId: nat, docId: int)
    requires Consistent(docs, chunks, nextDocId, nextChunkId, Embeddings(chunks))
    ensures Consistent(DocsWithout(docs, docId), OtherDocsRows(chunks, docId), nextDocId, nextChunkId,
                       Embeddings(OtherDocsRows(chunks, docId)))
  {
    var keepRow := (r: ChunkRow) => r.documentId as int != docId;
    var keepDoc := (d: Doc) => d.id as int != docId;
    var rows, ds := OtherDocsRows(chunks, docId), DocsWithout(docs, docId);
    KeepRowsAscending(chunks, keepRow);
    KeepDocsAscending(docs, keepDoc);
    forall i | 0 <= i < |rows|
      ensures 1 <= rows[i].id < nextChunkId && rows[i].documentId as int in DocIds(ds)
    {
      assert rows[i] in rows;
      KeepMember(chunks, keepRow, rows[i]);
      var d :| d in docs && d.id as int == rows[i].documentId as int;
      KeepMember(docs, keepDoc, d);
    }
    forall i | 0 <= i < |ds|
      ensures 1 <= ds[i].id < nextDocId
    {
      assert ds[i] in ds;
      KeepMember(docs, keepDoc, ds[i]);
    }
  }

  // ----- Histories that break the position-to-id mapping -----

  /** A content of at most 500 characters is stored as one chunk row holding all of it. */
  lemma ShortContentOneRow(first: nat, docId: nat, text: string, embed: string -> Vec)
    requires |text| <= Chunker.DefaultChunkSize
    ensures NewRows(first, docId, Chunker.Chunks(text, Chunker.DefaultChunkSize, Chunker.DefaultOverlap), embed)
         == [ChunkRow(first, docId, text, 0, embed(text), |text|)]
  {
  }

  /** A single stored chunk with id 2: position 0 is read as id 1 and finds nothing. */
  lemma SecondIdAtFirstPosition(r: ChunkRow, d: Doc, s: Score)
    requires r.id == 2 && r.documentId == d.id
    ensures Resolve([Hit(s, 0)], IdRows([Hit(s, 0)], [r]), [d]) == []
    ensures Resolve([Hit(s, 0)], PositionRows([Hit(s, 0)], [r]), [d])
         == [SearchResult(r.text, s, d.filename, r.chunkSize, InfoOrEmpty(d.extractedInfo))]
  {
    var hits := [Hit(s, 0)];
    var byId, byPos := IdRows(hits, [r]), PositionRows(hits, [r]);
    assert byId == [None] && byPos == [Some(r)];
    assert hits[..0] == [] && byId[..0] == [] && byPos[..0] == [];
    assert DocWithId([d], r.documentId) == Some(d);
    assert Resolve(hits, byId, [d]) == Resolve([], [], [d]) + ResultFor(hits[0], None, [d]);
    assert Resolve(hits, byPos, [d]) == Resolve([], [], [d]) + ResultFor(hits[0], Some(r), [d]);
  }

  lemma DeleteFromTwo(d1: Doc, d2: Doc, r1: ChunkRow, r2: ChunkRow, docId: int)
    requires d1.id as int == docId != d2.id as int
    requires r1.documentId as int == docId != r2.documentId as int
    ensures DocsWithout([d1, d2], docId) == [d2]
    ensures OtherDocsRows([r1, r2], docId) == [r2]
  {
    assert [r1, r2][..1] == [r1] && [r1][..0] == [];
    assert OtherDocsRows([r1], docId) == OtherDocsRows([], docId) + [];
    assert OtherDocsRows([r1, r2], docId) == OtherDocsRows([r1], docId) + [r2];
    assert [d1, d2][..1] == [d1] && [d1][..0] == [];
    assert DocsWithout([d1], docId) == DocsWithout([], docId) + [];
    assert DocsWithout([d1, d2], docId) == DocsWithout([d1], docId) + [d2];
  }

  /** A fresh store after adding "A" as `a.txt` and then "B" as `b.txt`. */
  method TwoDocuments(embed: string -> Vec) returns (rag: RagSystem)
    ensures fresh(rag) && rag.Valid()
    ensures rag.docs == [Doc(1, "a.txt", "A", None), Doc(2, "b.txt", "B", None)]
    ensures rag.chunks == [ChunkRow(1, 1, "A", 0, embed("A"), 1), ChunkRow(2, 2, "B", 0, embed("B"), 1)]
  {
    ShortContentOneRow(1, 1, "A", embed);
    ShortContentOneRow(2, 2, "B", embed);
    rag := new RagSystem();
    var a := rag.AddDocument("a.txt", "A", None, embed);
    var b := rag.AddDocument("b.txt", "B", None, embed);
  }

  /**
   * Two one-chunk documents, the first deleted: the surviving chunk (id 2)
   * sits at index position 0, which `search` reads as chunk id 1.
   */
  method DeleteThenSearch(embed: string -> Vec, s: Score) returns (asWritten: seq<SearchResult>, byPosition: seq<SearchResult>)
    ensures asWritten == []
    ensures byPosition == [SearchResult("B", s, "b.txt", 1, map[])]
  {
    ghost var r1, r2 := ChunkRow(1, 1, "A", 0, embed("A"), 1), ChunkRow(2, 2, "B", 0, embed("B"), 1);
    ghost var d1, d2 := Doc(1, "a.txt", "A", None), Doc(2, "b.txt", "B", None);
    DeleteFromTwo(d1, d2, r1, r2, 1);
    SecondIdAtFirstPosition(r2, d2, s);
    var rag := TwoDocuments(embed);
    var ok := rag.DeleteDocument(1);
    assert |rag.index| == 1;
    asWritten := rag.Search(SearchTopK, [Hit(s, 0)]);
    byPosition := rag.SearchByPosition(SearchTopK, [Hit(s, 0)]);
  }

  /**
   * The same history seen through `get_context_for_query`: as written, the
   * query context is the "nothing found" sentinel although the index holds
   * B's vector; by position it is B's block.
   */
  method DeleteThenContext(embed: string -> Vec, s: Score) returns (asWritten: string, byPosition: string)
    ensures asWritten == Context.NoContext
    ensures byPosition == "[b.txt] B"
  {
    ghost var r1, r2 := ChunkRow(1, 1, "A", 0, embed("A"), 1), ChunkRow(2, 2, "B", 0, embed("B"), 1);
    ghost var d1, d2 := Doc(1, "a.txt", "A", None), Doc(2, "b.txt", "B", None);
    DeleteFromTwo(d1, d2, r1, r2, 1);
    SecondIdAtFirstPosition(r2, d2, s);
    Context.SingleResultContext(SearchResult("B", s, "b.txt", 1, map[]), Context.DefaultMaxContext);
    var rag := TwoDocuments(embed);
    var ok := rag.DeleteDocument(1);
    assert |rag.index| == 1;
    asWritten := rag.GetContextForQuery(Context.DefaultMaxContext, [Hit(s, 0)]);
    byPosition := rag.GetContextForQueryByPosition(Context.DefaultMaxContext, [Hit(s, 0)]);
  }

  /**
   * `clear_all` keeps the id counter, so the first chunk stored afterwards
   * (id 2) sits at position 0, which `search` reads as chunk id 1.
   */
  method ClearThenSearch(embed: string -> Vec, s: Score) returns (asWritten: seq<SearchResult>, byPosition: seq<SearchResult>)
    ensures asWritten == []
    ensures byPosition == [SearchResult("B", s, "b.txt", 1, map[])]
  {
    ghost var r2, d2 := ChunkRow(2, 2, "B", 0, embed("B"), 1), Doc(2, "b.txt", "B", None);
    ShortContentOneRow(1, 1, "A", embed);
    ShortContentOneRow(2, 2, "B", embed);
    SecondIdAtFirstPosition(r2, d2, s);
    var rag := new RagSystem();
    var a := rag.AddDocument("a.txt", "A", None, embed);
    assert rag.nextChunkId == 2 && rag.nextDocId == 2;
    rag.ClearAll();
    var b := rag.AddDocument("b.txt", "B", None, embed);
    assert rag.chunks == [r2] && rag.docs == [d2] && |rag.index| == 1;
    asWritten := rag.Search(SearchTopK, [Hit(s, 0)]);
    byPosition := rag.SearchByPosition(SearchTopK, [Hit(s, 0)]);
  }
}
