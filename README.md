# Document question-answering pipeline: ingestion, retrieval formatting and error messages

This project models the deterministic core of a retrieval-augmented
question-answering chat application, and proves properties of that model.
The application has a user upload documents. It extracts and chunks them,
indexes the chunks in a Milvus vector store, and then answers questions from
the chunks retrieved for each question. The parser, the embedding model, the
vector store, the retriever and the language model are all external services.
Each of them is a function parameter here:

- the document loader maps a file path to its chunks or to the exception it raised;
- the store maps a chunk list to a store handle or to an exception;
- the retriever maps a question to its chunks or to an exception;
- the structured-output model chain maps a question and a context string to a
  `StructuredAnswer` or to an exception.

Exceptions are values of `Errors.Error`. It tells a `ValueError` proper from a
subclass of it, does the same for `ConnectionError`, and puts every other
exception in one group. An operation that may raise returns `Result<T>`.

Modules:

- `Text` (text.dfy) holds the pieces of Python string behaviour the core
  relies on:
  - `str.strip()` over Python's whitespace set;
  - `str.join`;
  - the decimal rendering of an integer inside an f-string;
  - `str.format(error=...)` on a template parsed into literal text and
    `{error}` fields.
- `Errors` (errors.dfy) holds the exception model plus `Option` and `Result`.
- `Schema` (schema.dfy) holds the records: `Document` (a chunk: content and
  metadata), `SourceDocument` and `StructuredAnswer`.
- `Retrieval` (retrieval.dfy) holds three operations:
  - `format_docs_with_sources`, the numbered context blocks in the prompt;
  - `format_sources_for_display`, the citations grouped by file;
  - `get_rag_response`, which guards the question, retrieves, and then either
    gives the canned answer or calls the model.
- `Indexing` (indexing.dfy) holds two operations:
  - `parse_and_chunk_files`, per-file extraction with failure isolation and
    metadata stamping;
  - `ingest_to_vectorstore`, the empty-list guard and the mapping of store
    exceptions.
- `ErrorHandler` (error_handler.dfy) holds
  the template table keyed by exact exception type, `get_error_message`, and
  what `handle_error` logs and shows.
- `Pipeline` (pipeline.dfy) holds properties of the pieces taken together.

The two imperative loops of retrieval.py and the loop of indexing.py are
`method`s with loop invariants. Each is proved equal to a specification
function: `FormattedContext`, `SourcesDisplay` or `ParseOutcome`. Lemmas then
prove properties of those specification functions, such as block placement,
distinct file sections in first-appearance order, excerpt counts, chunk
provenance and failure isolation. Two results compare the model with an
independent definition:

- `Indexing.CollectIsContributions` relates the loop state to the per-file
  `Contributions` and `FailedNames`;
- `Text.StrippedSliceIsUnique` relates `Strip` to the `IsStrippedAt`
  characterisation of a stripped slice.

`get_rag_response`, `ingest_to_vectorstore` and the error handler have no
loops or state, so they are functions.

## Model

| member | source | states |
|---|---|---|
| Text.IsSpace | retrieval.py:57 | `c.isspace()`: membership in `Whitespace`, the 29 characters Python treats as whitespace (U+0009–U+000D, U+001C–U+0020, U+0085, U+00A0, U+1680, U+2000–U+200A, U+2028, U+2029, U+202F, U+205F, U+3000); the set `str.strip()` removes at lines 57 and 78 |
| Text.Strip | retrieval.py:57 | `str.strip()` as the right trim of the left trim; its meaning is stated by `StripIsStrippedSlice` and `StrippedSliceIsUnique` |
| Text.Join | retrieval.py:30 | `sep.join(parts)`: the empty string for no parts, the part alone for one, otherwise parts separated by `sep`; its shape is stated by `JoinConcat` and `JoinAt` |
| Text.TrimStart | retrieval.py:57 | the left trim is a suffix of its input that does not start with whitespace, and everything it cut off is whitespace |
| Text.TrimEnd | retrieval.py:57 | the right trim is a prefix of its input that does not end with whitespace, and everything it cut off is whitespace |
| Text.StripIsStrippedSlice | retrieval.py:57 | `Strip(s)` is a slice of `s` with only whitespace before and after it, and it neither starts nor ends with whitespace |
| Text.StrippedSliceIsUnique | retrieval.py:57 | any slice of `s` with only whitespace around it and no whitespace at either end equals `Strip(s)`, so `Strip` is exactly Python's `str.strip()` |
| Text.BlankIffAllSpace | retrieval.py:78 | a string strips to empty exactly when every character is whitespace, which covers the empty string |
| Text.JoinConcat | retrieval.py:30 | joining the concatenation of two non-empty lists equals the two joins with one separator between them |
| Text.JoinAt | retrieval.py:30 | in a join, part k sits between the join of the parts before it and the join of the parts after it, with one separator on each side where there are neighbours |
| Text.NatToString | retrieval.py:20 | the rendering of `n` is non-empty, all decimal digits, has no leading zero unless it is "0", and reads back as `n` |
| Text.NatToStringInjective | retrieval.py:20 | different positions get different labels |
| Text.FormatError | error_handler.py:60 | `template.format(error=value)` on a template parsed into literal text and `{error}` fields: the literal text in order, with `value` in place of each field; it renders the `user_message` entry at lines 60 and 82 |
| Retrieval.SourceLabel | retrieval.py:24 | `d.metadata.get('source', 'Unknown Source')`; used by `FormattedContextIgnoresOtherMetadata` |
| Retrieval.Block | retrieval.py:20-27 | the f-string `f"[{i+1}] (File: {file_name}):\n{d.page_content}"` for the chunk at 1-based position `i+1`, with `SourceLabel` as the file name |
| Retrieval.Blocks | retrieval.py:18-27 | built one append at a time as the loop does; proved by induction to hold one block per chunk, in retrieval order, block k labelled `[k+1]` |
| Retrieval.FormattedContext | retrieval.py:17-30 | what `format_docs_with_sources` returns; it is empty exactly when there are no chunks |
| Retrieval.FormatDocsWithSources | retrieval.py:10-30 | the loop builds exactly the specified context: the blocks joined by `\n\n---\n\n` |
| Retrieval.FormattedContextOfFew | retrieval.py:17-30 | no chunks give the empty string; one chunk gives `[1] (File: source):\ncontent` with no separator |
| Retrieval.FormattedContextAt | retrieval.py:18-30 | for every k, the context is the blocks before k, then block k labelled k+1, then the blocks after k, with separators between them and nothing else |
| Retrieval.FormattedContextIgnoresOtherMetadata | retrieval.py:24 | the context depends on each chunk only through its content and its `source` entry; a chunk without `source` is labelled `Unknown Source` |
| Retrieval.FileOrder | retrieval.py:46-54 | the key order of the `file_excerpts` dict that line 54 iterates: each file name once, in the order it first appears among the citations; stated by `FileOrderDistinct`, `FileOrderCovers` and `FileOrderPrefix` |
| Retrieval.ExcerptsOf | retrieval.py:47-50 | the list `file_excerpts[file_name]`: the `chunk_content` of every citation of that file, in citation order |
| Retrieval.ExcerptLine | retrieval.py:57 | the line `f"> **Excerpt {i}:** {content.strip()}\n"` for excerpt number `i` |
| Retrieval.ExcerptLines | retrieval.py:56-57 | the inner loop's text for one file: one `ExcerptLine` per excerpt, numbered from 1 in list order |
| Retrieval.FileSection | retrieval.py:55-58 | one file's section: the line `f"**File:** ...\n"` with the file name in backquotes, its excerpt lines, then a blank line |
| Retrieval.Sections | retrieval.py:54-58 | the outer loop's text: the sections of the given files, in the order given, each with the excerpts `ExcerptsOf` collects |
| Retrieval.SourcesDisplay | retrieval.py:42-60 | what `format_sources_for_display` returns: `None` for no citations, else the header followed by one section per file of `FileOrder`; its properties are stated by the lemmas below |
| Retrieval.FormatSourcesForDisplay | retrieval.py:33-60 | the dict-filling loop and the nested append loops produce exactly `SourcesDisplay`: the header, then one section per file in first-appearance order, each with its excerpts numbered from 1 and stripped |
| Retrieval.SourcesDisplayShape | retrieval.py:42-53 | the result is `None` exactly when there are no citations; otherwise the text starts with `**Sources Cited**:\n\n` |
| Retrieval.FileOrderDistinct | retrieval.py:46-54 | no file gets two sections |
| Retrieval.FileOrderCovers | retrieval.py:47-50 | a file gets a section exactly when some citation names it |
| Retrieval.FileOrderPrefix | retrieval.py:47-50 | sections follow first appearance: the files of any prefix of the citations come first, in the same order |
| Retrieval.ExcerptsOfAbsent | retrieval.py:48-50 | a file no citation names collects no excerpts |
| Retrieval.ExcerptCountIsCitationCount | retrieval.py:47-57 | the number of excerpt lines over all sections equals the number of citations |
| Retrieval.GetRagResponse | retrieval.py:63-122 | `get_rag_response`: a success implies the question is not blank and the retriever succeeded, and a non-empty citation list implies something was retrieved; the lemmas below pin down each outcome |
| Retrieval.BlankQuestionRejected | retrieval.py:78-79 | an empty or whitespace-only question yields `ValueError("Question cannot be empty")`, the same for every retriever and model chain, so neither is consulted |
| Retrieval.NonBlankQuestionRetrieves | retrieval.py:83-122 | otherwise a retriever exception propagates; an empty retrieval gives the canned answer; any other retrieval gives the model's outcome unchanged (answer and citations verbatim, or its exception) for the formatted context |
| Retrieval.EmptyRetrievalSkipsModel | retrieval.py:87-92 | on an empty retrieval the result is the same for every model chain, and its `sources_cited` is empty |
| Indexing.Tag | indexing.py:104-106 | a stamped chunk keeps its content and its other metadata; `source` is the file name and `original_path` the file path |
| Indexing.TagAll | indexing.py:104-106 | built one chunk at a time as the stamping loop does; proved by induction to keep the chunk count and order and to stamp every chunk |
| Indexing.Fails | indexing.py:94-117 | a file counts as failed when its loader raises (lines 115-117) or returns no chunks (lines 96-101); otherwise its chunks are stamped and kept |
| Indexing.Collect | indexing.py:86-119 | the loop state `(all_chunks, failed_files)` after a prefix of the files; related to the per-file definitions by `CollectIsContributions` |
| Indexing.ParseOutcome | indexing.py:86-125 | what `parse_and_chunk_files` returns or raises: a success is never empty, and every failure is a ValueError proper |
| Indexing.ParseAndChunkFiles | indexing.py:70-137 | the loop returns exactly `ParseOutcome`: the gathered chunks, or a ValueError naming the failed files when nothing was gathered |
| Indexing.ContributionsConcat | indexing.py:89-119 | uploads processed one after another contribute the concatenation of their chunks and of their failed names |
| Indexing.CollectIsContributions | indexing.py:86-119 | the chunks gathered are the stamped chunks of the successful files, concatenated in upload order; the failed names are those of the failed files, each once, in upload order |
| Indexing.FailingFileIsIsolated | indexing.py:96-119 | a file whose loader raises or returns nothing changes no chunk of any other file; it only adds its name to the failed list, at its upload position |
| Indexing.ChunkProvenance | indexing.py:104-108 | every returned chunk carries the name and path of a successful file of the upload |
| Indexing.NothingGatheredIffAllFail | indexing.py:121-125 | nothing is gathered exactly when every file fails |
| Indexing.AllFailedNames | indexing.py:121-125 | when every file fails, the failed list is every file name in upload order |
| Indexing.AllFailedNamesEveryFile | indexing.py:121-125 | when every file fails, the result is `ValueError("Failed to extract content from all files: " + ", ".join(all names))` |
| Indexing.OneSuccessSuffices | indexing.py:121-137 | one file that yields chunks is enough: no exception escapes, and the result is the concatenated contributions, which are non-empty |
| Indexing.MapStoreFailure | indexing.py:189-201 | the two `except` clauses: the outcome stays a success or a failure as it was, a success is unchanged, and a failure is a connection error exactly when the store's was |
| Indexing.IngestToVectorstore | indexing.py:149-201 | `ingest_to_vectorstore`: a success needs a non-empty chunk list and is exactly the store's handle |
| Indexing.EmptyIngestRejected | indexing.py:162-163 | an empty chunk list yields `ValueError("Cannot ingest empty chunks list")`, the same for every store, so the store is not consulted |
| Indexing.IngestMapsStoreOutcome | indexing.py:167-201 | for a non-empty list a store handle is returned as is; a ConnectionError or subclass becomes `ConnectionError("Failed to connect to Milvus at " + uri + ": " + msg)`; any other exception propagates unchanged |
| ErrorHandler.ExactType | error_handler.py:43 | `type(error)` as a key of the constant table `ErrorMessages` (lines 11-27): ValueError, ConnectionError and `Exception` proper are keys, and a subclass of ValueError or ConnectionError or an unrelated class is not and falls back to the `Exception` entry; since `Exception`'s own entry is that fallback entry, `Other` covers both `Exception` itself and unrelated classes and selects the same template as the source |
| ErrorHandler.TemplateFor | error_handler.py:11-27 | `ERROR_MESSAGES.get(type(error), ERROR_MESSAGES[Exception])` over the constant table `ErrorMessages`; the choice is stated by `TemplateByExactType` |
| ErrorHandler.GetErrorMessage | error_handler.py:66-82 | `get_error_message`; its text for every kind of error is stated by the lemmas below |
| ErrorHandler.HandleError | error_handler.py:30-63 | what `handle_error` logs and sends, as a value; related to `get_error_message` by `HandleErrorAgrees` |
| ErrorHandler.TemplateByExactType | error_handler.py:11-27 | the validation template goes to a ValueError proper only, the connection template to a ConnectionError proper only, and the generic template to everything else, subclasses included |
| ErrorHandler.UserMessageText | error_handler.py:12-26 | the formatted user message is "Validation error: " + text for a ValueError proper, and the fixed connection or generic text otherwise |
| ErrorHandler.PlainValueErrorShowsMessage | error_handler.py:76-82 | a plain ValueError always gets the warning prefix followed by its message: bare with details, after "Validation error: " without |
| ErrorHandler.ValueErrorSubclassShowsDetail | error_handler.py:76-82 | a ValueError subclass gets the cross-mark prefix; with details it still shows its message, and without details it shows the generic text |
| ErrorHandler.OtherErrorsGetFixedText | error_handler.py:79-82 | every other case gives the cross-mark prefix and the fixed connection or generic text, and the same message for any error text |
| ErrorHandler.HandleErrorAgrees | error_handler.py:43-60 | `handle_error` shows the same message as `get_error_message`; it logs "Error during " + context + ": " + the error text; it logs at warning level exactly for a ValueError proper |
| Pipeline.ParsedChunksReachStore | indexing.py:121-163 | a successful parse is non-empty, so ingesting it never trips the empty-list guard and always consults the store |
| Pipeline.IngestedChunksLabelledByFile | retrieval.py:24 | the label `format_docs_with_sources` would give a chunk that ingestion gathered is the name of an uploaded file that did not fail |
| Pipeline.StoreConnectionFailureMessage | indexing.py:189-194 | a store connection failure, even a subclass, is rewrapped as a ConnectionError proper, so the user sees the fixed connection message |
| Pipeline.BlankQuestionMessage | retrieval.py:78-79 | with details shown, a blank question reaches the user as the warning sign followed by "Question cannot be empty" |

## Left out

- Chainlit UI work is not modelled: progress and status messages, message updates, and `handle_error`'s send. Only the text `handle_error` would send is modelled.
- Chainlit and logging calls are assumed never to raise. In the source several of them sit inside the `try` blocks, so an exception from one would change the outcome:
  - in `parse_and_chunk_files`, a raise from `file_msg.update()` at indexing.py:100 records the file name twice (lines 98 and 117);
  - a raise at indexing.py:112 leaves the file's chunks in `all_chunks` (line 108) and also records the file as failed;
  - a raise from the message sends at indexing.py:84, 90 or 119, or from the updates at 132, aborts the whole batch;
  - in `ingest_to_vectorstore`, a raise from `step_msg.update()` at indexing.py:184, after a successful store write, turns the success into an error, and a ConnectionError there is rewrapped as "Failed to connect to Milvus at ...".
- Indexing.CollectIsContributions: "each failed file once" holds only under that assumption; see the line above.
- Indexing.FailingFileIsIsolated: holds only if no Chainlit call in the loop raises.
- Indexing.IngestMapsStoreOutcome: holds only if no Chainlit call of `ingest_to_vectorstore` raises. "A store handle is returned as is" needs the update at indexing.py:183-184 not to raise. The rewrapping of a ConnectionError, and the pass-through of every other exception, need the send at indexing.py:165 and the updates at 192-193 and 199-200 not to raise.
- Logging calls, `_log_sample_chunks` and debug previews are not modelled. They have no effect on results. The log text and log level that `handle_error` would choose are modelled as values.
- `async`/`await` and `cl.make_async` are not modelled. The functions are modelled as sequential.
- `load_docs_and_chunk` and the Docling converter and chunker are not modelled. Extraction is a function from path to chunks or an exception, so the loader is assumed to give one outcome per path.
- Embeddings, `Milvus.from_documents` and its `drop_old` collection replacement are not modelled. The store is a function from chunks to a handle or an exception.
- Pipeline.IngestedChunksLabelledByFile: speaks of the chunks ingestion gathers, not of what the retriever returns at query time. The model does not connect the retriever to the store, and does not promise that the store returns chunks with their metadata unchanged.
- The retriever, the prompt and the LangChain chain are not modelled. The chain is a function from question and context to a `StructuredAnswer` or an exception.
- The prompt's rule that a refusal comes with no citations is enforced only by the prompt, so it is not a property of `get_rag_response`.
- The docstring of `get_rag_response` says a ValueError is raised when nothing is retrieved. The code returns the canned answer instead, and the model follows the code.
- `app.py` is not part of this model. It is a separate UI prototype with no core logic.
- `config.py` is not part of this model. Its environment loading is left out, and the Milvus URI is a parameter. `CHUNK_MAX_TOKENS`, which indexing.py imports, is not defined there, and nothing here depends on it.
- Indexing.ParseAndChunkFiles: chunks are values, so the in-place rewrite of each chunk's metadata dict becomes a rewrite of the method's local copy. Aliasing of those dicts with the loader's objects is not captured.
- Schema.Document: metadata values are kept as the text an f-string renders for them, not as arbitrary Python objects.
- Text.FormatError: `str.format` is modelled on a template already parsed into literal text and `{error}` fields. The parsing of braces, and other fields or format specs, are not modelled; the three templates use none.
- ErrorHandler.OtherErrorsGetFixedText: "the message never contains the error text" is stated as "the message is the same for every error text". Literal non-containment is false for texts that occur inside the fixed message, such as a single letter.
- Exceptions outside `Exception` (`BaseException` such as `KeyboardInterrupt`) are not modelled. The code does not catch them.
- The retrieval log line truncates the question to 100 characters, and the error log line truncates it to 50. Both are logging only, and neither is modelled.
