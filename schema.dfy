/** The records that flow through the pipeline: the document chunks produced
    by extraction and returned by retrieval, and the structured answer the
    language model is asked to produce. */
module Schema {

  /** A document chunk (LangChain's `Document`): its text and its metadata.
      Metadata values are kept as the text an f-string renders for them. */
  datatype Document = Document(pageContent: string, metadata: map<string, string>)

  /** One citation: the file it comes from and the excerpt quoted from it. */
  datatype SourceDocument = SourceDocument(fileName: string, chunkContent: string)

  /** The model's answer and the citations backing it, in model output order. */
  datatype StructuredAnswer = StructuredAnswer(answer: string, sourcesCited: seq<SourceDocument>)
}
