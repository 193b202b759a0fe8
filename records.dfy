/**
 * The rows and results the retrieval engine passes around. Embedding vectors,
 * similarity scores and the values inside `extracted_info` are never inspected
 * by the engine's own logic, so they are opaque types here.
 */
module Records {

  datatype Option<T> = None | Some(value: T)

  /** A normalised embedding vector (float32 components in the source). */
  type Vec(==)

  /** A similarity score returned by the vector index. */
  type Score

  /** One value of the `extracted_info` dictionary (any JSON value). */
  type InfoValue

  /** The `extracted_info` dictionary attached to a document. */
  type Info = map<string, InfoValue>

  /** A row of the `documents` table. `extractedInfo` is `None` where the column is NULL. */
  datatype Doc = Doc(id: nat, filename: string, content: string, extractedInfo: Option<Info>)

  /**
   * A row of the `chunks` table: `chunkIndex` is the chunk's position among its
   * document's chunks and `chunkSize` the `{"chunk_size": ...}` metadata.
   */
  datatype ChunkRow = ChunkRow(id: nat, documentId: nat, text: string, chunkIndex: nat, embedding: Vec, chunkSize: nat)

  /** One entry of the index's ranking: a score and an index position (-1 for "no result"). */
  datatype Hit = Hit(score: Score, position: int)

  /** One result of `search`: chunk text, score, file name, chunk metadata and the document's extracted info. */
  datatype SearchResult = SearchResult(chunkText: string, score: Score, filename: string, chunkSize: nat, extractedInfo: Info)
}
