/**
 * The embedding store behind `DataIngestionServiceImpl`: the documents that
 * were ingested into the shared in-memory store, which the retriever fills,
 * queries and clears.
 *
 * Embedding, similarity ranking and the remote embedding model are outside
 * code: whether an ingestion or a clear succeeds and what a query returns
 * are the fields of `StoreBehaviour`, as functions of the stored documents.
 */
module EmbeddingStore {
  import opened Wrappers

  /**
   * - `ingests(stored, doc)`: `ingestData` of `doc` returns normally when the
   *   store holds `stored`;
   * - `search(stored, question)`: the texts `retrieveData(question)` returns,
   *   `None` when it throws;
   * - `clears(stored)`: `removeAll` returns normally.
   */
  datatype StoreBehaviour = StoreBehaviour(
    ingests: (seq<string>, string) -> bool,
    search: (seq<string>, string) -> Option<seq<string>>,
    clears: seq<string> -> bool)

  class Store {
    const behaviour: StoreBehaviour
    /** The documents ingested since the last successful clear, oldest first. */
    var documents: seq<string>

    /** A fresh in-memory store holds nothing. */
    constructor (behaviour: StoreBehaviour)
      ensures this.behaviour == behaviour
      ensures documents == []
    {
      this.behaviour := behaviour;
      documents := [];
    }

    /** `ingestData`: a successful ingestion appends the document; a failed one adds nothing. */
    method IngestData(doc: string) returns (ok: bool)
      modifies this
      ensures ok == behaviour.ingests(old(documents), doc)
      ensures documents == if ok then old(documents) + [doc] else old(documents)
    {
      ok := behaviour.ingests(documents, doc);
      if ok {
        documents := documents + [doc];
      }
    }

    /** `retrieveData`: a query reads the store and leaves it as it is. */
    method RetrieveData(question: string) returns (r: Option<seq<string>>)
      ensures r == behaviour.search(documents, question)
    {
      r := behaviour.search(documents, question);
    }

    /** `clearData`: a successful `removeAll` empties the store; a failed one leaves it. */
    method ClearData() returns (ok: bool)
      modifies this
      ensures ok == behaviour.clears(old(documents))
      ensures documents == if ok then [] else old(documents)
    {
      ok := behaviour.clears(documents);
      if ok {
        documents := [];
      }
    }
  }
}
