/** Ingestion: extracting chunks from each uploaded file with per-file
    failure isolation, then handing the aggregate to the vector store. The
    document loader and the embedding + vector-store write are function
    parameters: a loader maps a file path to its chunks or to the exception
    it raised; a store maps the chunks to a store handle or to an exception. */
module Indexing {
  import opened Text
  import opened Errors
  import opened Schema

  /** An uploaded file: its display name and where its bytes are stored. */
  datatype UploadedFile = UploadedFile(name: string, path: string)

  const AllFailedPrefix := "Failed to extract content from all files: "
  const EmptyChunksMessage := "Cannot ingest empty chunks list"
  const ConnectionFailurePrefix := "Failed to connect to Milvus at "

  /** The chunk `d` stamped with the identity of the file it came from. */
  function Tag(d: Document, file: UploadedFile): (r: Document)
    ensures r.pageContent == d.pageContent
    ensures r.metadata.Keys == d.metadata.Keys + {"source", "original_path"}
    ensures r.metadata["source"] == file.name && r.metadata["original_path"] == file.path
    ensures forall key :: key in d.metadata && key != "source" && key != "original_path" ==>
                            r.metadata[key] == d.metadata[key]
  {
    d.(metadata := d.metadata["source" := file.name]["original_path" := file.path])
  }

  /** The chunks of one file after the stamping loop, which rewrites them
      one at a time in extraction order. */
  function TagAll(docs: seq<Document>, file: UploadedFile): (r: seq<Document>)
    ensures |r| == |docs|
    ensures forall k :: 0 <= k < |docs| ==> r[k] == Tag(docs[k], file)
  {
    if docs == [] then []
    else
      var n, init := |docs|, docs[..|docs| - 1];
      var prev, last := TagAll(init, file), Tag(docs[n - 1], file);
      assert forall k :: 0 <= k < n ==> (prev + [last])[k] == Tag(docs[k], file) by {
        forall k | 0 <= k < n ensures (prev + [last])[k] == Tag(docs[k], file) {
          if k < n - 1 { assert init[k] == docs[k]; }
        }
      }
      prev + [last]
  }

  /** The file counts as failed: its loader raised, or returned no chunks. */
  predicate Fails(file: UploadedFile, load: string -> Result<seq<Document>>) {
    load(file.path).Err? || load(file.path).value == []
  }

  /** The state of the loop: the chunks gathered and the names of the files
      that failed. */
  datatype Batch = Batch(chunks: seq<Document>, failed: seq<string>)

  /** The loop state after processing `files` in order. */
  function Collect(files: seq<UploadedFile>, load: string -> Result<seq<Document>>): Batch {
    if files == [] then Batch([], [])
    else
      var prev := Collect(files[..|files| - 1], load);
      var file := files[|files| - 1];
      match load(file.path)
      case Err(_) => Batch(prev.chunks, prev.failed + [file.name])
      case Ok(docs) =>
        if docs == [] then Batch(prev.chunks, prev.failed + [file.name])
        else Batch(prev.chunks + TagAll(docs, file), prev.failed)
  }

  /** What `parse_and_chunk_files(files)` returns or raises. */
  function ParseOutcome(files: seq<UploadedFile>, load: string -> Result<seq<Document>>): (r: Result<seq<Document>>)
    ensures r.Ok? ==> r.value != []
    ensures r.Err? ==> r.error.ValueErr?
  {
    var batch := Collect(files, load);
    if batch.chunks == [] then Err(ValueErr(AllFailedPrefix + Join(", ", batch.failed)))
    else Ok(batch.chunks)
  }

  /** `parse_and_chunk_files`: loads each file in turn; a file whose loader
      raises or returns nothing is recorded as failed and skipped; the chunks
      of the others get the file's name and path in their metadata and are
      appended. With no chunks at all it raises a ValueError naming the
      failed files. */
  method ParseAndChunkFiles(files: seq<UploadedFile>, load: string -> Result<seq<Document>>)
    returns (r: Result<seq<Document>>)
    ensures r == ParseOutcome(files, load)
  {
    var allChunks: seq<Document> := [];
    var failedFiles: seq<string> := [];
    for i := 0 to |files|
      invariant Batch(allChunks, failedFiles) == Collect(files[..i], load)
    {
      assert files[..i + 1][..i] == files[..i];
      var file := files[i];
      var outcome := load(file.path);
      if outcome.Err? {
        failedFiles := failedFiles + [file.name];
        continue;
      }
      var docs := outcome.value;
      if docs == [] {
        failedFiles := failedFiles + [file.name];
        continue;
      }
      for j := 0 to |docs|
        invariant |docs| == |outcome.value|
        invariant forall k :: 0 <= k < j ==> docs[k] == Tag(outcome.value[k], file)
        invariant forall k :: j <= k < |docs| ==> docs[k] == outcome.value[k]
      {
        var doc := docs[j];
        docs := docs[j := doc.(metadata := doc.metadata["source" := file.name]["original_path" := file.path])];
      }
      assert docs == TagAll(outcome.value, file);
      allChunks := allChunks + docs;
    }
    assert files[..|files|] == files;
    if allChunks == [] {
      r := Err(ValueErr(AllFailedPrefix + Join(", ", failedFiles)));
    } else {
      r := Ok(allChunks);
    }
  }

  // ---------------------------------------------------------------------------
  // Reference definitions: what each file contributes, and who failed
  // ---------------------------------------------------------------------------

  /** The chunks one file contributes: none if it failed, otherwise its
      chunks in extraction order, stamped with its identity. */
  function Contribution(file: UploadedFile, load: string -> Result<seq<Document>>): seq<Document> {
    if Fails(file, load) then [] else TagAll(load(file.path).value, file)
  }

  /** The contributions of the files, concatenated in upload order. */
  function Contributions(files: seq<UploadedFile>, load: string -> Result<seq<Document>>): seq<Document> {
    if files == [] then [] else Contribution(files[0], load) + Contributions(files[1..], load)
  }

  /** The names of the failed files, in upload order. */
  function FailedNames(files: seq<UploadedFile>, load: string -> Result<seq<Document>>): seq<string> {
    if files == [] then []
    else (if Fails(files[0], load) then [files[0].name] else []) + FailedNames(files[1..], load)
  }

  function Names(files: seq<UploadedFile>): seq<string> {
    if files == [] then [] else [files[0].name] + Names(files[1..])
  }

  lemma {:induction false} ContributionsConcat(a: seq<UploadedFile>, b: seq<UploadedFile>, load: string -> Result<seq<Document>>)
    ensures Contributions(a + b, load) == Contributions(a, load) + Contributions(b, load)
    ensures FailedNames(a + b, load) == FailedNames(a, load) + FailedNames(b, load)
  {
    if a != [] {
      assert (a + b)[0] == a[0] && (a + b)[1..] == a[1..] + b;
      ContributionsConcat(a[1..], b, load);
      AppendAssoc(Contribution(a[0], load), Contributions(a[1..], load), Contributions(b, load));
      var failedHere := if Fails(a[0], load) then [a[0].name] else [];
      AppendAssoc(failedHere, FailedNames(a[1..], load), FailedNames(b, load));
    } else {
      assert a + b == b;
    }
  }

  /** One step of the loop: the last file adds its contribution, or its
      name if it failed. */
  lemma CollectLast(files: seq<UploadedFile>, load: string -> Result<seq<Document>>)
    requires files != []
    ensures var init, file := files[..|files| - 1], files[|files| - 1];
      Collect(files, load) == Batch(Collect(init, load).chunks + Contribution(file, load),
                                    Collect(init, load).failed + (if Fails(file, load) then [file.name] else []))
  {
  }

  /** The loop gathers exactly the contributions of the files in upload
      order, and records exactly the failed files, in upload order, each
      once. */
  lemma {:induction false} CollectIsContributions(files: seq<UploadedFile>, load: string -> Result<seq<Document>>)
    ensures Collect(files, load).chunks == Contributions(files, load)
    ensures Collect(files, load).failed == FailedNames(files, load)
  {
    if files != [] {
      var init, file := files[..|files| - 1], files[|files| - 1];
      var prev := Collect(init, load);
      var failedHere := if Fails(file, load) then [file.name] else [];
      assert Collect(files, load) == Batch(prev.chunks + Contribution(file, load), prev.failed + failedHere) by {
        CollectLast(files, load);
      }
      assert prev.chunks == Contributions(init, load) && prev.failed == FailedNames(init, load) by {
        CollectIsContributions(init, load);
      }
      assert Contributions(files, load) == Contributions(init, load) + Contribution(file, load)
          && FailedNames(files, load) == FailedNames(init, load) + failedHere by {
        SplitLast(files);
        ContributionsConcat(init, [file], load);
        ContributionsOfOne(file, load);
      }
    }
  }

  /** Partial-failure isolation: a failing file anywhere in the upload
      contributes nothing and does not disturb what the other files
      contribute; it only adds its name to the failed list, at its place. */
  lemma FailingFileIsIsolated(a: seq<UploadedFile>, file: UploadedFile, b: seq<UploadedFile>,
                               load: string -> Result<seq<Document>>)
    requires Fails(file, load)
    ensures Collect(a + [file] + b, load).chunks == Collect(a + b, load).chunks
    ensures Collect(a + [file] + b, load).failed == FailedNames(a, load) + [file.name] + FailedNames(b, load)
  {
    SkipFailing(a, file, b, load);
    CollectIsContributions(a + [file] + b, load);
    CollectIsContributions(a + b, load);
  }

  lemma SkipFailing(a: seq<UploadedFile>, file: UploadedFile, b: seq<UploadedFile>,
                    load: string -> Result<seq<Document>>)
    requires Fails(file, load)
    ensures Contributions(a + [file] + b, load) == Contributions(a + b, load)
    ensures FailedNames(a + [file] + b, load) == FailedNames(a, load) + [file.name] + FailedNames(b, load)
  {
    var ca, cb := Contributions(a, load), Contributions(b, load);
    assert Contributions(a + [file], load) == ca by {
      ContributionsConcat(a, [file], load);
      ContributionsOfOne(file, load);
      assert ca + [] == ca;
    }
    assert FailedNames(a + [file], load) == FailedNames(a, load) + [file.name] by {
      ContributionsConcat(a, [file], load);
      ContributionsOfOne(file, load);
    }
    ContributionsConcat(a + [file], b, load);
    ContributionsConcat(a, b, load);
  }

  lemma ContributionsOfOne(file: UploadedFile, load: string -> Result<seq<Document>>)
    ensures Contributions([file], load) == Contribution(file, load)
    ensures FailedNames([file], load) == if Fails(file, load) then [file.name] else []
  {
    assert [file][1..] == [];
  }

  /** The chunk carries `file`'s name as its source and `file`'s path as
      its original path. */
  predicate StampedBy(c: Document, file: UploadedFile) {
    "source" in c.metadata && c.metadata["source"] == file.name &&
    "original_path" in c.metadata && c.metadata["original_path"] == file.path
  }

  /** Every gathered chunk carries the name and the path of a file of the
      upload that did not fail. */
  lemma {:induction false} ChunkProvenance(files: seq<UploadedFile>, load: string -> Result<seq<Document>>)
    ensures forall c :: c in Collect(files, load).chunks ==>
      exists i :: 0 <= i < |files| && !Fails(files[i], load) && StampedBy(c, files[i])
  {
    if files != [] {
      var init, file := files[..|files| - 1], files[|files| - 1];
      CollectLast(files, load);
      ChunkProvenance(init, load);
      forall c | c in Collect(files, load).chunks
        ensures exists i :: 0 <= i < |files| && !Fails(files[i], load) && StampedBy(c, files[i])
      {
        if c in Collect(init, load).chunks {
          var i :| 0 <= i < |init| && !Fails(init[i], load) && StampedBy(c, init[i]);
          assert files[i] == init[i];
        } else {
          var docs := load(file.path).value;
          var k :| 0 <= k < |docs| && c == TagAll(docs, file)[k];
          assert StampedBy(c, files[|files| - 1]);
        }
      }
    }
  }

  /** Nothing is gathered exactly when every file fails. */
  lemma {:induction false} NothingGatheredIffAllFail(files: seq<UploadedFile>, load: string -> Result<seq<Document>>)
    ensures Collect(files, load).chunks == [] <==> forall i :: 0 <= i < |files| ==> Fails(files[i], load)
  {
    if files != [] {
      var init := files[..|files| - 1];
      NothingGatheredIffAllFail(init, load);
      assert forall i :: 0 <= i < |init| ==> init[i] == files[i];
    }
  }

  /** When every file fails, the ValueError names every file, in upload
      order. */
  lemma AllFailedNamesEveryFile(files: seq<UploadedFile>, load: string -> Result<seq<Document>>)
    requires forall i :: 0 <= i < |files| ==> Fails(files[i], load)
    ensures ParseOutcome(files, load) == Err(ValueErr(AllFailedPrefix + Join(", ", Names(files))))
  {
    NothingGatheredIffAllFail(files, load);
    CollectIsContributions(files, load);
    AllFailedNames(files, load);
  }

  lemma {:induction false} AllFailedNames(files: seq<UploadedFile>, load: string -> Result<seq<Document>>)
    requires forall i :: 0 <= i < |files| ==> Fails(files[i], load)
    ensures FailedNames(files, load) == Names(files)
  {
    if files != [] {
      assert Fails(files[0], load);
      AllFailedNames(files[1..], load);
    }
  }

  /** With at least one file that yields chunks, no exception escapes: the
      result is the non-empty concatenation of the contributions. */
  lemma OneSuccessSuffices(files: seq<UploadedFile>, load: string -> Result<seq<Document>>, i: nat)
    requires i < |files| && !Fails(files[i], load)
    ensures ParseOutcome(files, load) == Ok(Contributions(files, load))
    ensures Contributions(files, load) != []
  {
    NothingGatheredIffAllFail(files, load);
    CollectIsContributions(files, load);
  }

  // ---------------------------------------------------------------------------
  // Writing to the vector store
  // ---------------------------------------------------------------------------

  /** The `except` clauses around the store call: a ConnectionError (or a
      subclass) is raised again as a ConnectionError whose message names the
      store URI; any other exception propagates as is. */
  function MapStoreFailure<H>(outcome: Result<H>, uri: string): (r: Result<H>)
    ensures r.Ok? <==> outcome.Ok?
    ensures outcome.Ok? ==> r == outcome
    ensures r.Err? ==> (r.error.IsConnectionError() <==> outcome.error.IsConnectionError())
  {
    match outcome
    case Ok(handle) => Ok(handle)
    case Err(e) =>
      if e.IsConnectionError() then Err(ConnErr(ConnectionFailurePrefix + uri + ": " + e.msg))
      else Err(e)
  }

  /** `ingest_to_vectorstore`: refuses an empty chunk list before touching
      the store; otherwise the store's outcome with its failures mapped. */
  function IngestToVectorstore<H>(chunks: seq<Document>, store: seq<Document> -> Result<H>, uri: string): (r: Result<H>)
    ensures r.Ok? ==> chunks != [] && r == store(chunks)
  {
    if chunks == [] then Err(ValueErr(EmptyChunksMessage))
    else MapStoreFailure(store(chunks), uri)
  }

  /** An empty list is refused whatever the store would do: the store is not
      consulted. */
  lemma EmptyIngestRejected<H>(store: seq<Document> -> Result<H>, store': seq<Document> -> Result<H>, uri: string)
    ensures IngestToVectorstore([], store, uri) == Err(ValueErr(EmptyChunksMessage))
    ensures IngestToVectorstore([], store, uri) == IngestToVectorstore([], store', uri)
  {
  }

  /** For a non-empty list the result is the store's outcome, with connection
      failures (of the exact type or a subclass) turned into a plain
      ConnectionError carrying the URI and the original message, and every
      other failure left untouched. */
  lemma IngestMapsStoreOutcome<H>(chunks: seq<Document>, store: seq<Document> -> Result<H>, uri: string)
    requires chunks != []
    ensures store(chunks).Ok? ==> IngestToVectorstore(chunks, store, uri) == store(chunks)
    ensures store(chunks).Err? && store(chunks).error.IsConnectionError() ==>
      IngestToVectorstore(chunks, store, uri) ==
        Err(ConnErr(ConnectionFailurePrefix + uri + ": " + store(chunks).error.msg))
    ensures store(chunks).Err? && !store(chunks).error.IsConnectionError() ==>
      IngestToVectorstore(chunks, store, uri) == store(chunks)
  {
  }
}
