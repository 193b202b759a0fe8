# PDF registry assistant: retrieval core, modelled in Dafny

This project models the retrieval core of a Portuguese real-estate registry
assistant. The assistant stores PDF text as documents. It splits each document
into overlapping chunks and keeps one embedding vector per chunk in a flat
vector index. To answer a question, it retrieves the best-ranked chunks and
assembles them into a context for a language model. A second part extracts
registry data (matrícula number, description, areas, inscription number) from
the model's reply.

The model has six modules:

- `Strings` (`strings.dfy`) holds Python's string primitives as the source uses them:
  - `strip` over the `str.isspace` character set;
  - left-to-right `replace`;
  - `find` returning -1.
- `Chunker` (`chunker.dfy`) is `_chunk_text`. It is a window loop that cuts after the last `.`, `!`, `?` or newline near the raw end and drops blank chunks.
- `Records` (`records.dfy`) holds the table rows and the search results. Vectors, scores and JSON values are opaque types.
- `Context` (`context.dfy`) is `get_context_for_query`'s accumulator loop under a character budget.
- `RagStore` (`store.dfy`) is class `RagSystem`. Its fields are:
  - the document table;
  - the chunk table;
  - the two AUTOINCREMENT counters;
  - the vector index.

  It covers `add_document`, `search`, `get_document_count`, `delete_document`, `_rebuild_index_excluding_chunks` and `clear_all`.
- `ResponseParsing` (`response.dfy`) covers:
  - code-fence stripping;
  - the brace-depth scan for the first `{...}` span;
  - the fallback record: newline flattening, `_extract_matricula`, `_extract_inscricao` and `_extract_areas`.

The embedding model is a parameter `embed: string -> Vec`, covering both encoding and normalisation. The index's similarity ranking is a parameter `hits: seq<Hit>`: pairs of a score and an index position, which is what `index.search` returns for `k = min(top_k, ntotal)`. The JSON decoder and the regular expressions are parameters too.

The state invariant `RagStore.Consistent` says:
- ids start at 1, ascend, and stay below their counters;
- every chunk's document is stored;
- the index is exactly the chunk vectors, in ascending chunk id order.

The public operations (`AddDocument`, `DeleteDocument`, `ClearAll`) preserve it. The rebuild helper `RebuildIndexExcludingChunks` breaks it on its own: it replaces the index before the rows are deleted, and `DeleteDocument` then deletes them, which restores it.

## Model

| member | source | states |
|---|---|---|
| Strings.SkipSpacesIsMaximalRun | rag_system.py:132 | the leading run `strip` removes is all whitespace and is followed by a non-space character or the end |
| Strings.TrimEndIsMaximalRun | rag_system.py:132 | the trailing run `strip` removes is all whitespace and is preceded by a non-space character or the start |
| Strings.StripTrimsBothEnds | rag_system.py:132-133 | `strip` gives the empty string exactly when every character is whitespace; otherwise the result neither starts nor ends with whitespace |
| Strings.StripOfSlice | rag_system.py:132 | stripping the slice `text[lo:hi]` is the slice of `text` between the first and last non-space characters in that range |
| Strings.FindChar | ollama_client.py:56 | `find` returns -1 exactly when the character is absent; otherwise it returns the index of its first occurrence |
| Strings.ReplaceCharRemoves | ollama_client.py:80 | replacing `'\n'` by `' '` keeps the length and leaves no `'\n'` |
| Chunker.ScanBackFindsLastTerminator | rag_system.py:127-130 | the backward scan cuts just after the last terminator in `text[lo+1..i]`, and keeps the raw end exactly when that range has none |
| Chunker.CutEndAtBoundary | rag_system.py:123-130 | a cut other than the raw end falls just after a terminator; `end == start + chunk_size + 1` only when the character at the raw end is a terminator; no scan happens when the text runs out first |
| Chunker.CutEnd | rag_system.py:123-130 | every cut lies strictly past `start + chunk_size // 2` and at most at `start + chunk_size + 1` |
| Chunker.FindCut | rag_system.py:123-130 | the scanning loop, with its early `break`, computes the cut that `CutEnd` specifies |
| Chunker.WindowsBounds | rag_system.py:122-138 | every window starts inside the text, and its end is the cut for its start |
| Chunker.WindowsLinked | rag_system.py:136-138 | each next window starts at the previous end minus `overlap`, which is inside the text |
| Chunker.WindowsLast | rag_system.py:136-138 | the last window's end minus `overlap` reaches `len(text)`, which is the loop's exit |
| Chunker.WindowsProgress | rag_system.py:120-138 | with `0 <= overlap <= chunk_size // 2`: the windows start at 0, starts strictly increase, consecutive windows leave no gap, each window is at most `chunk_size + 1` long, and the last reaches the end |
| Chunker.WindowsCover | rag_system.py:120-138 | every position of the text lies in some window |
| Chunker.StrippedPieceIsStrip | rag_system.py:132 | each chunk candidate is `text[start:end].strip()` with Python's clamped slicing |
| Chunker.NonBlankMembers | rag_system.py:133-134 | a stripped piece is among the kept chunks exactly when it is one of the candidates and is non-empty |
| Chunker.ChunksAreNonBlankSlices | rag_system.py:116-140 | a text of at most `chunk_size` characters gives exactly `[text]`, unstripped and possibly empty; on the long path every chunk is non-empty, has no whitespace at either end and is a contiguous substring of the text; and every window with a non-blank stripped piece contributes that piece |
| Chunker.ChunkText | rag_system.py:114-140 | the `while` loop returns exactly the chunks of the window specification, and `[text]` for a short text |
| Context.Block | rag_system.py:237 | a block is `"[" + filename + "] " + chunk`, three characters longer than its two parts |
| Context.FittedIsLongestPrefix | rag_system.py:233-237 | the results added whole are the longest prefix whose chunk lengths sum to at most `max_context_length`; the next result would exceed it |
| Context.PartsShape | rag_system.py:233-243 | the blocks are the whole-result blocks in result order, plus at most one more: the next chunk cut to the remaining budget with `"..."`, present exactly when more than 100 characters remain |
| Context.ContextIsSentinelIffNoResults | rag_system.py:227-228 | the context is `"Nenhum documento relevante encontrado."` exactly when the search returned nothing |
| Context.ContextCanExceedBudget | rag_system.py:235-238 | the budget counts chunk text only: one result `"abc"` from file `f` with budget 3 gives `"[f] abc"`, seven characters |
| Context.Assemble | rag_system.py:230-245 | the loop with its running total and `break` returns the specified context |
| RagStore.ChunkIdsOf | rag_system.py:285-286 | the selected ids are exactly the ids of the document's chunk rows |
| RagStore.ExcludingOwnIdsIsDeletingRows | rag_system.py:285-294 | with unique ids, `WHERE id NOT IN (the document's chunk ids)` keeps exactly the rows that `DELETE ... WHERE document_id = ?` keeps |
| RagStore.DocsWithoutCount | rag_system.py:294 | deleting a stored document id removes one row; an unknown id removes none |
| RagStore.RowWithId | rag_system.py:202-209 | a row found by id is in the table and has that id; no row is found exactly when no row has it |
| RagStore.DocWithId | rag_system.py:202-206 | the join finds a document exactly when its id is stored |
| RagStore.RowWithIdFinds | rag_system.py:202-209 | with ascending ids, looking up a row's own id returns that row |
| RagStore.ResolveAtMostOnePerHit | rag_system.py:198-218 | a ranking yields at most one result per hit |
| RagStore.ResolveOnePerHit | rag_system.py:198-218 | when every hit reads a row whose document is stored, there is exactly one result per hit, in ranking order, carrying the row's text and size and the hit's score |
| RagStore.PositionLookupIffDenseIds | rag_system.py:207 | looking up position `k` as chunk id `k+1` returns the row at position `k` for every `k` exactly when the chunk ids are `1..n` |
| RagStore.DenseIdsLookupByPosition | rag_system.py:207 | while the chunk ids are `1..n`, the as-written lookup reads the row whose vector sits at each ranked position |
| RagStore.PositionPlusOneMisreads | rag_system.py:207 | with rows of ids 2 and 3, position 0 finds no row and position 1 returns the row at position 0 |
| RagStore.Collect | rag_system.py:198-218 | the loop over the ranking returns one result per hit whose row and document exist, in ranking order, at most one per hit |
| RagStore.RagSystem.constructor | rag_system.py:42-70 | a new store is empty, satisfies the invariant, has dense ids and starts both counters at 1 |
| RagStore.RagSystem.AddDocument | rag_system.py:142-179 | one document is appended under the counter's fresh id; one row per chunk follows, with consecutive fresh ids, `chunk_index` `0..n-1` and `chunk_size` equal to the chunk length; the same `n` vectors are appended to the index in chunk order; earlier rows and vectors are unchanged; dense ids stay dense |
| RagStore.RagSystem.StoreChunks | rag_system.py:162-170 | the insertion loop appends row `i` and then its vector, keeping the invariant |
| RagStore.RagSystem.Search | rag_system.py:181-221 | an empty index gives `[]` for any `top_k`; otherwise the results resolve each ranked position `p` as chunk id `p+1`, skipping -1 and missing rows, in ranking order, at most `min(top_k, ntotal)` of them |
| RagStore.RagSystem.SearchByPosition | rag_system.py:181-221 | like `Search`, but position `p` reads the row whose vector is at index position `p` |
| RagStore.RagSystem.GetContextForQuery | rag_system.py:223-245 | the context is the sentinel for an empty index; otherwise it is the assembled context of the top three results of the as-written search, which reads position `p` as chunk id `p+1` |
| RagStore.RagSystem.GetContextForQueryByPosition | rag_system.py:223-245 | the same context built on the corrected search, which reads the row whose vector sits at each ranked position |
| RagStore.RagSystem.GetDocumentCount | rag_system.py:247-254 | the count is the number of stored documents |
| RagStore.RagSystem.RebuildIndexExcludingChunks | rag_system.py:306-335 | the new index is exactly the vectors of the rows not excluded, in ascending chunk id order, whether or not any remain; the tables are untouched |
| RagStore.RagSystem.DeleteDocument | rag_system.py:278-304 | removes the document and all its rows; rebuilds the index only when the document had chunks, otherwise leaves it as it was; the invariant holds; the document count drops by one for a stored id and is unchanged for an unknown one; it returns `True` in every case |
| RagStore.RagSystem.ClearAll | rag_system.py:337-350 | both tables and the index are empty and the counters are unchanged, so a second call leaves the same state |
| RagStore.AddDocKeepsConsistent | rag_system.py:148-153 | inserting a document under the next id keeps the invariant |
| RagStore.AddRowKeepsConsistent | rag_system.py:164-170 | appending a row with the next id together with its vector keeps the invariant |
| RagStore.DeleteKeepsConsistent | rag_system.py:290-296 | deleting a document and its rows, with the index rebuilt from the survivors, keeps the invariant |
| RagStore.ShortContentOneRow | rag_system.py:155-168 | a content of at most 500 characters is stored as one row holding all of it |
| RagStore.SecondIdAtFirstPosition | rag_system.py:207 | with one stored chunk of id 2, position 0 gives no result as written and that chunk by position |
| RagStore.DeleteThenSearch | rag_system.py:197-210 | after adding two one-chunk documents and deleting the first, the as-written search for position 0 returns nothing, while the corrected search returns the surviving chunk |
| RagStore.DeleteThenContext | rag_system.py:223-245 | after adding two one-chunk documents and deleting the first, the as-written query context is the sentinel `"Nenhum documento relevante encontrado."`, while the corrected one is `"[b.txt] B"` |
| Context.SingleResultContext | rag_system.py:233-245 | one result that fits the budget gives exactly its own `"[filename] chunk"` block |
| RagStore.ClearThenSearch | rag_system.py:197-210 | after `clear_all` and one new document, the as-written search for position 0 returns nothing, while the corrected search returns the new chunk |
| ResponseParsing.FenceRemovalIsComplete | ollama_client.py:55 | removing every `` ``` `` left to right leaves none behind |
| ResponseParsing.CleanResponseIsClean | ollama_client.py:55 | the cleaned reply contains no `` ``` `` and neither starts nor ends with whitespace |
| ResponseParsing.DepthCountsBraces | ollama_client.py:58-66 | the scan's depth is the number of `{` minus the number of `}`, counting every brace |
| ResponseParsing.FirstCloseFinds | ollama_client.py:61-68 | the end found is the first cut at which the depth is 0; no end is found exactly when the depth is never 0 |
| ResponseParsing.JsonSpanIsFirstBalanced | ollama_client.py:56-70 | a span starts at the first `{`, ends just after a `}`, has equal `{` and `}` counts, and has strictly positive depth at every proper prefix; there is no span exactly when there is no `{` or the depth never returns to 0 |
| ResponseParsing.BalancedEndIsUnique | ollama_client.py:61-68 | at most one end balances a given start |
| ResponseParsing.QuotedBraceCloses | ollama_client.py:61-66 | a `}` inside a quoted string closes the object: the span of `{"k": "}"}` is its first 8 characters |
| ResponseParsing.FindJsonSpan | ollama_client.py:56-70 | the loop with its counter and `break` produces the specified span, or none when `end_idx` never moves |
| ResponseParsing.FlattenDescription | ollama_client.py:80 | the description has no `'\n'` and the length of the stripped text |
| ResponseParsing.FirstMatch | ollama_client.py:92-103 | the result is the capture of the first pattern that matches, and `""` when none matches |
| ResponseParsing.ExtractAreas | ollama_client.py:109-126 | the map has exactly the six fixed keys; each value is its pattern's capture or `""` |
| ResponseParsing.ExtractMatriculaInfo | ollama_client.py:53-87 | the decoded JSON is returned exactly when a span exists and decodes; otherwise the fallback record holds the first matching matrícula capture (or `""`), the flattened description with no `'\n'`, the inscription capture or `""`, and exactly the six area keys with their captures or `""` |

## Left out

- Embedding, normalisation and scoring are floating-point work in foreign libraries (SentenceTransformer `encode`, numpy, FAISS `IndexFlatIP`). They are the parameters `embed` and `hits`. The model does not capture a zero vector's division by its norm.
- SQLite, SQL text, JSON serialisation of metadata and extracted info, pickle persistence of the index, `_save_index`, `_load_or_create_index` and logging are I/O. The tables and the index are in-memory sequences.
- An index loaded from disk that is out of step with the database is not modelled.
- `get_all_documents` orders by a wall-clock timestamp. It is not modelled.
- `generate_response` is an HTTP call. `extract_matricula_info` is modelled from the moment the reply is in hand.
  - Its outer `except Exception` wrapper is not modelled.
  - Neither are exceptions raised by `json.loads` other than a decode error.
- The regular expressions of `_extract_matricula`, `_extract_inscricao` and `_extract_areas` are not modelled; each pattern's capture group is a parameter.
- `add_document` with a long, all-whitespace content has no chunks, so `encode` returns an empty batch. What numpy does with that batch, and whether the already-inserted document row is then committed, is not modelled: the model adds the document with no chunks.
- Exceptions in `delete_document` (the `False` path) come only from the database layer, which is not modelled. `RagStore.RagSystem.DeleteDocument` always returns `True`.
- Chunker.ChunkText: requires `overlap <= chunk_size // 2`. With a larger overlap the source's loop can fail to advance; the source always uses the defaults 500 and 100.
- RagStore.RagSystem.Search: requires `top_k > 0` when the index is non-empty, because FAISS rejects a non-positive `k` there. An empty index returns `[]` for any `top_k` without calling FAISS. On a non-empty index it also requires that the ranking has exactly `min(top_k, ntotal)` entries. The ranking's positions are otherwise unconstrained. `RagStore.RagSystem.SearchByPosition` has the same requirement.
- rag_client.py, app.py and pdf_extractor_precise.py are not part of this model.

Behaviours of the code that a reader might not expect, all kept in the model:
- The context budget counts chunk characters only. Prefixes, separators and the ellipsis are not counted (`Context.ContextCanExceedBudget`).
- `delete_document` of an unknown id reports success.
- `clear_all` does not reset the id counters.

## Findings

| source | as written | input that shows it | evidently intended | confidence | as-written member | corrected member |
|---|---|---|---|---|---|---|
| rag_system.py:207 | index position `p` is looked up as chunk id `p + 1` | add "A" as `a.txt` and "B" as `b.txt`, delete document 1, then search with ranking `[(s, 0)]`: no result, although the index holds only B's vector. The query context is then the "nothing found" sentinel instead of `[b.txt] B`. `clear_all` followed by one new document fails the same way, and with chunk ids 2 and 3 position 1 returns the chunk whose vector is at position 0 | read the row whose vector sits at position `p`: the `p`-th row in ascending id order, which is how the rebuild at line 316 lays out the index | not executed | RagStore.RagSystem.Search, RagStore.RagSystem.GetContextForQuery, RagStore.DeleteThenSearch, RagStore.DeleteThenContext | RagStore.RagSystem.SearchByPosition, RagStore.RagSystem.GetContextForQueryByPosition |
