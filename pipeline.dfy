/** Properties of the pieces taken together: what ingestion hands to the
    vector store, how ingested chunks are labelled at query time, and which
    user message each pipeline failure produces. */
module Pipeline {
  import opened Text
  import opened Errors
  import opened Schema
  import opened Indexing
  import opened Retrieval
  import opened ErrorHandler

  /** A successful parse never trips the store's empty-list guard: the store
      is always consulted with the parsed chunks. */
  lemma ParsedChunksReachStore<H>(files: seq<UploadedFile>, load: string -> Result<seq<Document>>,
                                  store: seq<Document> -> Result<H>, uri: string)
    requires ParseOutcome(files, load).Ok?
    ensures ParseOutcome(files, load).value != []
    ensures IngestToVectorstore(ParseOutcome(files, load).value, store, uri)
            == MapStoreFailure(store(ParseOutcome(files, load).value), uri)
  {
  }

  /** The label `format_docs_with_sources` would give a chunk that ingestion
      gathered is the name of an uploaded file that did not fail, never the
      fallback label unless such a file carries that name. */
  lemma IngestedChunksLabelledByFile(files: seq<UploadedFile>, load: string -> Result<seq<Document>>, c: Document)
    requires c in Collect(files, load).chunks
    ensures exists i :: 0 <= i < |files| && !Fails(files[i], load) && SourceLabel(c) == files[i].name
  {
    ChunkProvenance(files, load);
    var i :| 0 <= i < |files| && !Fails(files[i], load) && StampedBy(c, files[i]);
    assert SourceLabel(c) == files[i].name;
  }

  /** A connection failure of the store, whether a ConnectionError proper or
      a subclass, reaches the user as the fixed connection message: the
      rewrap makes it a ConnectionError proper. */
  lemma StoreConnectionFailureMessage<H>(chunks: seq<Document>, store: seq<Document> -> Result<H>,
                                         uri: string, showDetails: bool)
    requires chunks != [] && store(chunks).Err? && store(chunks).error.IsConnectionError()
    ensures IngestToVectorstore(chunks, store, uri).Err?
    ensures GetErrorMessage(IngestToVectorstore(chunks, store, uri).error, showDetails)
            == CrossMark + " " + ConnectionText
  {
    IngestMapsStoreOutcome(chunks, store, uri);
    OtherErrorsGetFixedText(IngestToVectorstore(chunks, store, uri).error, showDetails, "");
  }

  /** A blank question reaches the user, with details shown, as the warning
      sign followed by the validation message. */
  lemma BlankQuestionMessage(question: string, retrieve: string -> Result<seq<Document>>,
                             generate: (string, string) -> Result<StructuredAnswer>)
    requires AllSpace(question)
    ensures GetRagResponse(question, retrieve, generate).Err?
    ensures GetErrorMessage(GetRagResponse(question, retrieve, generate).error, true)
            == WarningSign + " " + EmptyQuestionMessage
  {
    BlankQuestionRejected(question, retrieve, generate, retrieve, generate);
    PlainValueErrorShowsMessage(EmptyQuestionMessage, true);
  }
}
