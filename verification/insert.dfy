/**
  Writing documents to the vector store (src/database/insert.rs and the
  parts of src/database/client.rs it relies on): choosing an embedding,
  creating the documents table on first use and appending to it after.
  The store is a `VectorStore` object holding each table's rows; the
  embedding service is a function from text to its answer, and the
  store's own failures are an input to each write.
*/
module Insert {
  import opened Errors
  import opened DocumentModel
  import opened Embeddings

  type Vector = seq<real>

  /** The embedding service: the vector it returns for a text, or its
      error. */
  type EmbeddingApi = string -> Result<Vector>

  /** The dimension `insert_document` asks for. */
  const EmbeddingDim: nat := 768

  /** `InsertStats`. */
  datatype InsertStats = InsertStats(documentsInserted: nat, errors: nat)

  /** `InsertStats::default()`: every field zero. */
  function DefaultInsertStats(): (s: InsertStats)
    ensures s.documentsInserted == 0 && s.errors == 0
  {
    InsertStats(0, 0)
  }

  /** The inserter: the table it writes and the embedding client, present
      exactly when an API key is configured. */
  datatype BatchInserter = BatchInserter(tableName: string, embeddingClient: Option<EmbeddingApi>)

  /** `BatchInserter::new`; `connect` builds the client for a key. */
  function NewBatchInserter(tableName: string, apiKey: Option<string>, connect: string -> EmbeddingApi)
    : (b: BatchInserter)
    ensures b.tableName == tableName
    ensures b.embeddingClient.Some? <==> apiKey.Some?
    ensures apiKey.Some? ==> b.embeddingClient.value == connect(apiKey.value)
  {
    BatchInserter(tableName, if apiKey.Some? then Some(connect(apiKey.value)) else None)
  }

  /** `generate_embedding`: the service's vector when there is a service
      and it answers with a vector of the requested length; the fallback
      vector otherwise. */
  function GenerateEmbedding(b: BatchInserter, text: string, dim: nat): (v: Vector)
    ensures |v| == dim
  {
    match b.embeddingClient
    case None => FallbackEmbedding(text, dim)
    case Some(api) =>
      match api(text)
      case Err(_) => FallbackEmbedding(text, dim)
      case Ok(embedding) => if |embedding| != dim then FallbackEmbedding(text, dim) else embedding
  }

  /** The three ways an embedding is chosen: no service means the
      fallback; a service answer of the right length is used as is; a
      wrong-length answer or an error falls back. */
  lemma EmbeddingChoice(b: BatchInserter, text: string, dim: nat)
    ensures b.embeddingClient.None? ==> GenerateEmbedding(b, text, dim) == FallbackEmbedding(text, dim)
    ensures b.embeddingClient.Some? && b.embeddingClient.value(text).Ok? &&
            |b.embeddingClient.value(text).value| == dim ==>
      GenerateEmbedding(b, text, dim) == b.embeddingClient.value(text).value
    ensures b.embeddingClient.Some? &&
            (b.embeddingClient.value(text).Err? || |b.embeddingClient.value(text).value| != dim) ==>
      GenerateEmbedding(b, text, dim) == FallbackEmbedding(text, dim)
    ensures GenerateEmbedding(b, text, dim) == FallbackEmbedding(text, dim) ||
            (b.embeddingClient.Some? && b.embeddingClient.value(text) == Ok(GenerateEmbedding(b, text, dim)))
  {
  }

  /** One row of the documents table: the id is the content hash, the
      document's fields, its embedding, and a repository URL, which is
      always left null. Title, description and language are null too and
      are not modelled. */
  datatype Record = Record(id: string, document: Document, embedding: Vector, repositoryUrl: Option<string>)

  /** The row `insert_document` builds for a document. */
  function RecordOf(b: BatchInserter, document: Document): (r: Record)
    ensures r.id == document.contentHash && r.document == document
    ensures |r.embedding| == EmbeddingDim && r.repositoryUrl.None?
  {
    Record(document.contentHash, document, GenerateEmbedding(b, document.content, EmbeddingDim), None)
  }

  /** The vector store's tables, by name. */
  class VectorStore {
    var tables: map<string, seq<Record>>

    constructor(tables: map<string, seq<Record>>)
      ensures this.tables == tables
    {
      this.tables := tables;
    }

    /** The rows of a table; none when it does not exist. */
    function Rows(name: string): seq<Record>
      reads this
    {
      if name in tables then tables[name] else []
    }
  }

  /** `insert_document`: create the table holding the new row when it is
      missing, otherwise append the row; the result is the document's
      content hash. `backendError` is the store's failure for this write,
      if it fails; a failed write changes nothing. */
  method InsertDocument(b: BatchInserter, store: VectorStore, document: Document, backendError: Option<string>)
    returns (r: Result<string>)
    modifies store
    ensures backendError.None? ==> r == Ok(document.contentHash)
    ensures backendError.None? ==>
      store.tables == old(store.tables)[b.tableName := old(store.Rows(b.tableName)) + [RecordOf(b, document)]]
    ensures backendError.Some? ==> store.tables == old(store.tables) && r.Err?
    ensures backendError.Some? && b.tableName !in old(store.tables) ==>
      r == Err(DatabaseError("Failed to create table: " + backendError.value))
    ensures backendError.Some? && b.tableName in old(store.tables) ==>
      r == Err(DatabaseError("Failed to insert document: " + backendError.value))
  {
    var embedding := GenerateEmbedding(b, document.content, EmbeddingDim);
    var record := Record(document.contentHash, document, embedding, None);
    assert record == RecordOf(b, document);
    if b.tableName !in store.tables {
      if backendError.Some? {
        return Err(DatabaseError("Failed to create table: " + backendError.value));
      }
      store.tables := store.tables[b.tableName := [record]];
      assert old(store.Rows(b.tableName)) + [record] == [record];
    } else {
      if backendError.Some? {
        return Err(DatabaseError("Failed to insert document: " + backendError.value));
      }
      store.tables := store.tables[b.tableName := store.tables[b.tableName] + [record]];
    }
    return Ok(document.contentHash);
  }

  /** `delete_by_repository`: drop the rows whose repository URL is the
      given one; the result is always zero, as the store reports no
      count. */
  method DeleteByRepository(store: VectorStore, tableName: string, url: string, backendError: Option<string>)
    returns (r: Result<nat>)
    modifies store
    ensures backendError.None? ==> r == Ok(0)
    ensures backendError.None? ==>
      store.tables == if tableName in old(store.tables)
                      then old(store.tables)[tableName := KeepOthers(old(store.tables)[tableName], url)]
                      else old(store.tables)
    ensures tableName !in old(store.tables) ==> r == Ok(0) && store.tables == old(store.tables)
    ensures backendError.Some? ==> store.tables == old(store.tables)
    ensures backendError.Some? && tableName in old(store.tables) ==> r.Err?
  {
    if tableName !in store.tables {
      return Ok(0);
    }
    if backendError.Some? {
      return Err(DatabaseError("Failed to delete documents for repository " + url + ": " + backendError.value));
    }
    store.tables := store.tables[tableName := KeepOthers(store.tables[tableName], url)];
    return Ok(0);
  }

  /** The rows not tagged with the repository URL, in order. */
  function KeepOthers(rows: seq<Record>, url: string): (kept: seq<Record>)
    ensures forall r :: r in kept <==> r in rows && r.repositoryUrl != Some(url)
    ensures |kept| <= |rows|
  {
    if rows == [] then []
    else
      var rest := KeepOthers(rows[..|rows| - 1], url);
      var last := rows[|rows| - 1];
      if last.repositoryUrl == Some(url) then rest else rest + [last]
  }

  /** Rows written by `insert_document` carry no repository URL, so a
      delete by repository keeps every one of them. */
  lemma {:induction false} DeleteKeepsInsertedRows(rows: seq<Record>, url: string)
    requires forall r :: r in rows ==> r.repositoryUrl.None?
    ensures KeepOthers(rows, url) == rows
  {
    if rows != [] {
      var init := rows[..|rows| - 1];
      assert forall r :: r in init ==> r in rows;
      DeleteKeepsInsertedRows(init, url);
      assert init + [rows[|rows| - 1]] == rows;
    }
  }
}
