/**
 * The ingestion and query service: one document collection, one embedding
 * model and the document parser, wired together.
 *
 * The collection is the sequence of records added so far (the store only
 * ever appends). The embedding model is a fixed function from text to an
 * embedding or an error message. What the store itself does on a call it
 * is given -- whether an add fails, which records a nearest-neighbour query
 * returns -- is outside this model and comes in as a parameter.
 */
module Service {
  import opened Outcomes
  import opened DocParser

  /** An embedding vector; its components come from the model and are not interpreted here. */
  datatype Embedding = Embedding(components: seq<real>)

  type Metadata = map<string, string>

  /** One stored item: the document text, its embedding and its metadata. */
  datatype Record = Record(document: string, embedding: Embedding, metadata: Metadata)

  /** An HTTP error response: status code and detail message. */
  datatype HttpError = HttpError(status: int, detail: string)

  /** The acknowledgement of a successful ingest. */
  datatype IngestAck = IngestAck(message: string, filename: string)

  /** One entry of a query's results: a `{"document": ..., "metadata": ...}` pair. */
  datatype Hit<D, M> = Hit(document: D, metadata: M)

  /**
   * What the store's query call returns: for each query embedding it was
   * given, the list of matching documents and the list of their metadatas.
   */
  datatype StoreHits = StoreHits(documents: seq<seq<string>>, metadatas: seq<seq<Metadata>>)

  /**
   * The answer to a query: the query text and the zip of the store's two
   * per-embedding lists, so each entry holds one embedding's whole lists.
   */
  datatype QueryReply = QueryReply(query: string, results: seq<Hit<seq<string>, seq<Metadata>>>)

  const INGESTED_MESSAGE := "Document ingested successfully"
  const EMPTY_DOCUMENT_MESSAGE := "Document is empty."

  /** How many results a query asks the store for. */
  const N_RESULTS: nat := 5

  /** Every failure of an ingest: status 500 with the cause after a fixed prefix. */
  function IngestError(cause: string): HttpError
  {
    HttpError(500, "Error ingesting document: " + cause)
  }

  /** Every failure of a query: status 500 with the cause after a fixed prefix. */
  function QueryError(cause: string): HttpError
  {
    HttpError(500, "Error querying documents: " + cause)
  }

  function Min(a: nat, b: nat): nat
  {
    if a <= b then a else b
  }

  /** Python's `zip(documents, metadatas)`, each pair made into a result entry; stops at the shorter input. */
  function Zip<D, M>(documents: seq<D>, metadatas: seq<M>): (hits: seq<Hit<D, M>>)
    ensures |hits| == Min(|documents|, |metadatas|)
    ensures forall i :: 0 <= i < |hits| ==> hits[i] == Hit(documents[i], metadatas[i])
  {
    if documents == [] || metadatas == [] then []
    else [Hit(documents[0], metadatas[0])] + Zip(documents[1..], metadatas[1..])
  }

  /** The record a successful ingest of `text` from the upload named `filename` stores. */
  function NewRecord(text: string, embedding: Embedding, filename: string): Record
  {
    Record(text, embedding, map["filename" := filename])
  }

  /** A record as ingest leaves it: non-empty text, the model's embedding of that text, and a file name. */
  predicate WellFormed(r: Record, encode: string -> Result<Embedding, string>)
  {
    r.document != "" && encode(r.document) == Success(r.embedding) && "filename" in r.metadata
  }

  class DocumentService {
    /** The collection's records, oldest first. */
    var records: seq<Record>
    /** The embedding model, loaded once. */
    const encode: string -> Result<Embedding, string>
    /** The external readers used by the document parser. */
    const readers: Readers

    /** Every stored record came from a successful ingest. */
    ghost predicate Valid()
      reads this
    {
      forall i :: 0 <= i < |records| ==> WellFormed(records[i], encode)
    }

    /** A new, empty collection with the given model and readers. */
    constructor (encode: string -> Result<Embedding, string>, readers: Readers)
      ensures Valid()
      ensures records == []
      ensures this.encode == encode && this.readers == readers
    {
      this.records := [];
      this.encode := encode;
      this.readers := readers;
    }

    /**
     * Ingest an upload: parse it, reject empty text, embed it, add one
     * record. `addFault` is the error the store's add raises, if any.
     * Nothing is written unless every step succeeds.
     */
    method IngestDocument(file: Upload, addFault: Option<string>) returns (res: Result<IngestAck, HttpError>)
      requires Valid()
      modifies this
      ensures Valid()
      ensures var parsed := ParseDocument(file, readers);
        res.Success? <==>
          parsed.Success? && parsed.value != "" && encode(parsed.value).Success? && addFault.None?
      ensures res.Success? ==>
        var text := ParseDocument(file, readers).value;
        res.value == IngestAck(INGESTED_MESSAGE, file.filename) &&
        records == old(records) + [NewRecord(text, encode(text).value, file.filename)]
      ensures res.Failure? ==> records == old(records)
      ensures ParseDocument(file, readers).Failure? ==>
        res == Failure(IngestError(ParseDocument(file, readers).error))
      ensures ParseDocument(file, readers) == Success("") ==>
        res == Failure(IngestError(EMPTY_DOCUMENT_MESSAGE))
      ensures var parsed := ParseDocument(file, readers);
        parsed.Success? && parsed.value != "" && encode(parsed.value).Failure? ==>
          res == Failure(IngestError(encode(parsed.value).error))
      ensures var parsed := ParseDocument(file, readers);
        parsed.Success? && parsed.value != "" && encode(parsed.value).Success? && addFault.Some? ==>
          res == Failure(IngestError(addFault.value))
    {
      var parsed := ParseDocument(file, readers);
      if parsed.Failure? {
        return Failure(IngestError(parsed.error));
      }
      var text := parsed.value;
      if text == "" {
        return Failure(IngestError(EMPTY_DOCUMENT_MESSAGE));
      }
      var embedding := encode(text);
      if embedding.Failure? {
        return Failure(IngestError(embedding.error));
      }
      if addFault.Some? {
        return Failure(IngestError(addFault.value));
      }
      records := records + [NewRecord(text, embedding.value, file.filename)];
      res := Success(IngestAck(INGESTED_MESSAGE, file.filename));
    }

    /**
     * Answer a query: embed the query text, ask the store (`search`, given
     * the current records) for N_RESULTS neighbours of the one-element list
     * of query embeddings, and zip the returned per-embedding document and
     * metadata lists. Only reads the collection.
     */
    function QueryDocuments(query: string, search: (seq<Record>, seq<Embedding>, nat) -> Result<StoreHits, string>):
      (res: Result<QueryReply, HttpError>)
      reads this
      ensures res.Success? <==>
        encode(query).Success? && search(records, [encode(query).value], N_RESULTS).Success?
      ensures res.Success? ==>
        var hits := search(records, [encode(query).value], N_RESULTS).value;
        res.value.query == query &&
        |res.value.results| == Min(|hits.documents|, |hits.metadatas|) &&
        forall i :: 0 <= i < |res.value.results| ==>
          res.value.results[i] == Hit(hits.documents[i], hits.metadatas[i])
      ensures encode(query).Failure? ==> res == Failure(QueryError(encode(query).error))
      ensures encode(query).Success? && search(records, [encode(query).value], N_RESULTS).Failure? ==>
        res == Failure(QueryError(search(records, [encode(query).value], N_RESULTS).error))
    {
      match encode(query)
      case Failure(e) => Failure(QueryError(e))
      case Success(queryEmbedding) =>
        match search(records, [queryEmbedding], N_RESULTS)
        case Failure(e) => Failure(QueryError(e))
        case Success(hits) => Success(QueryReply(query, Zip(hits.documents, hits.metadatas)))
    }
  }

  /**
   * The store answers a one-embedding query with one document list and one
   * metadata list, so the reply has a single entry holding both whole lists,
   * not one entry per returned document.
   */
  lemma SingleEntryReply(
    s: DocumentService, query: string, search: (seq<Record>, seq<Embedding>, nat) -> Result<StoreHits, string>)
    requires s.encode(query).Success?
    requires search(s.records, [s.encode(query).value], N_RESULTS).Success?
    requires var hits := search(s.records, [s.encode(query).value], N_RESULTS).value;
      |hits.documents| == 1 && |hits.metadatas| == 1
    ensures var hits := search(s.records, [s.encode(query).value], N_RESULTS).value;
      s.QueryDocuments(query, search) == Success(QueryReply(query, [Hit(hits.documents[0], hits.metadatas[0])]))
  {
    var hits := search(s.records, [s.encode(query).value], N_RESULTS).value;
    var reply := s.QueryDocuments(query, search);
    assert |reply.value.results| == 1;
    assert reply.value.results == [reply.value.results[0]];
  }
}
