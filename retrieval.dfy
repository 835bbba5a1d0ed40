/** Query time: rendering retrieved chunks as a labelled context block,
    rendering the model's citations for display, and the guard / retrieve /
    generate sequence that produces an answer. The retriever and the
    structured-output model chain are function parameters. */
module Retrieval {
  import opened Text
  import opened Errors
  import opened Schema

  const Separator := "\n\n---\n\n"
  const UnknownSource := "Unknown Source"
  const SourcesHeader := "**Sources Cited**:\n\n"
  const EmptyQuestionMessage := "Question cannot be empty"
  const NoInformationAnswer :=
    "I couldn't find any relevant information in the uploaded documents to answer your question."

  // ---------------------------------------------------------------------------
  // Context block for the prompt
  // ---------------------------------------------------------------------------

  /** `d.metadata.get('source', 'Unknown Source')` */
  function SourceLabel(d: Document): string {
    if "source" in d.metadata then d.metadata["source"] else UnknownSource
  }

  /** The block for the chunk at 1-based `position`. */
  function Block(position: nat, d: Document): string {
    "[" + NatToString(position) + "] (File: " + SourceLabel(d) + "):\n" + d.pageContent
  }

  /** The blocks in the order the loop appends them: one per chunk, each
      labelled with its 1-based position in retrieval order. */
  function Blocks(docs: seq<Document>): (r: seq<string>)
    ensures |r| == |docs|
    ensures forall k :: 0 <= k < |docs| ==> r[k] == Block(k + 1, docs[k])
  {
    if docs == [] then []
    else
      var n, init := |docs|, docs[..|docs| - 1];
      var prev, last := Blocks(init), Block(n, docs[n - 1]);
      assert forall k :: 0 <= k < n ==> (prev + [last])[k] == Block(k + 1, docs[k]) by {
        forall k | 0 <= k < n ensures (prev + [last])[k] == Block(k + 1, docs[k]) {
          if k < n - 1 { assert init[k] == docs[k]; }
        }
      }
      prev + [last]
  }

  /** What `format_docs_with_sources(docs)` returns. */
  function FormattedContext(docs: seq<Document>): (r: string)
    ensures r == [] <==> docs == []
  {
    Join(Separator, Blocks(docs))
  }

  /** `format_docs_with_sources`: builds the list of blocks one chunk at a
      time, then joins them with the separator. */
  method FormatDocsWithSources(docs: seq<Document>) returns (r: string)
    ensures r == FormattedContext(docs)
  {
    var formatted: seq<string> := [];
    for i := 0 to |docs|
      invariant formatted == Blocks(docs[..i])
    {
      TakeStep(docs, i);
      formatted := formatted + [Block(i + 1, docs[i])];
    }
    TakeAll(docs);
    r := Join(Separator, formatted);
  }

  /** No chunks give the empty context; one chunk gives its block alone. */
  lemma FormattedContextOfFew(d: Document)
    ensures FormattedContext([]) == ""
    ensures FormattedContext([d]) == "[1] (File: " + SourceLabel(d) + "):\n" + d.pageContent
  {
    assert Blocks([d]) == [Block(1, d)];
    assert NatToString(1) == "1";
  }

  /** The block of the k-th chunk (1-based label k + 1) sits in the context
      exactly between the join of the blocks before it and the join of the
      blocks after it, separated from each by one separator: the context is
      n blocks, in retrieval order, and nothing else. */
  lemma FormattedContextAt(docs: seq<Document>, k: nat)
    requires k < |docs|
    ensures FormattedContext(docs) ==
      (if k == 0 then "" else Join(Separator, Blocks(docs)[..k]) + Separator)
      + Block(k + 1, docs[k])
      + (if k == |docs| - 1 then "" else Separator + Join(Separator, Blocks(docs)[k + 1..]))
  {
    JoinAt(Separator, Blocks(docs), k);
  }

  /** The context depends on each chunk only through its content and the
      `source` metadata entry; every other metadata key is ignored. */
  lemma FormattedContextIgnoresOtherMetadata(a: seq<Document>, b: seq<Document>)
    requires |a| == |b|
    requires forall k :: 0 <= k < |a| ==> a[k].pageContent == b[k].pageContent
    requires forall k :: 0 <= k < |a| ==>
      ("source" in a[k].metadata <==> "source" in b[k].metadata)
    requires forall k :: 0 <= k < |a| && "source" in a[k].metadata ==>
      a[k].metadata["source"] == b[k].metadata["source"]
    ensures FormattedContext(a) == FormattedContext(b)
  {
    assert Blocks(a) == Blocks(b) by {
      forall k | 0 <= k < |a| ensures Blocks(a)[k] == Blocks(b)[k] {
        assert SourceLabel(a[k]) == SourceLabel(b[k]);
      }
    }
  }

  // ---------------------------------------------------------------------------
  // Citations for display
  // ---------------------------------------------------------------------------

  /** The distinct file names of the citations, in order of first appearance
      (the key order of the `file_excerpts` dict). */
  function FileOrder(cites: seq<SourceDocument>): seq<string> {
    if cites == [] then []
    else
      var prev := FileOrder(cites[..|cites| - 1]);
      var f := cites[|cites| - 1].fileName;
      if f in prev then prev else prev + [f]
  }

  /** The excerpts cited from `fileName`, in citation order. */
  function ExcerptsOf(cites: seq<SourceDocument>, fileName: string): seq<string> {
    if cites == [] then []
    else
      var c := cites[|cites| - 1];
      ExcerptsOf(cites[..|cites| - 1], fileName) + (if c.fileName == fileName then [c.chunkContent] else [])
  }

  function ExcerptLine(number: nat, content: string): string {
    "> **Excerpt " + NatToString(number) + ":** " + Strip(content) + "\n"
  }

  /** The excerpt lines of one file, numbered from 1. */
  function ExcerptLines(contents: seq<string>): string {
    if contents == [] then ""
    else ExcerptLines(contents[..|contents| - 1]) + ExcerptLine(|contents|, contents[|contents| - 1])
  }

  function FileSection(fileName: string, contents: seq<string>): string {
    "**File:** `" + fileName + "`\n" + ExcerptLines(contents) + "\n"
  }

  /** The sections of `files`, in the order given. */
  function Sections(files: seq<string>, cites: seq<SourceDocument>): string {
    if files == [] then ""
    else
      var f := files[|files| - 1];
      Sections(files[..|files| - 1], cites) + FileSection(f, ExcerptsOf(cites, f))
  }

  /** What `format_sources_for_display(cites)` returns. */
  function SourcesDisplay(cites: seq<SourceDocument>): Option<string> {
    if cites == [] then None
    else Some(SourcesHeader + Sections(FileOrder(cites), cites))
  }

  /** `format_sources_for_display`: fills an insertion-ordered dict from file
      name to excerpts, then appends one section per key. The dict is a map
      plus the sequence of its keys in insertion order. */
  method FormatSourcesForDisplay(cites: seq<SourceDocument>) returns (r: Option<string>)
    ensures r == SourcesDisplay(cites)
  {
    if cites == [] {
      return None;
    }
    var fileExcerpts: map<string, seq<string>> := map[];
    var keys: seq<string> := [];
    for i := 0 to |cites|
      invariant keys == FileOrder(cites[..i])
      invariant forall f :: f in fileExcerpts <==> f in keys
      invariant forall f :: f in fileExcerpts ==> fileExcerpts[f] == ExcerptsOf(cites[..i], f)
    {
      var source := cites[i];
      ghost var isNew := source.fileName !in fileExcerpts;
      if source.fileName !in fileExcerpts {
        fileExcerpts := fileExcerpts[source.fileName := []];
        keys := keys + [source.fileName];
      }
      fileExcerpts := fileExcerpts[source.fileName := fileExcerpts[source.fileName] + [source.chunkContent]];
      assert keys == FileOrder(cites[..i + 1]) &&
             forall f :: f in fileExcerpts ==> fileExcerpts[f] == ExcerptsOf(cites[..i + 1], f) by {
        CiteStep(cites, i);
        if isNew {
          ExcerptsOfAbsent(cites[..i], source.fileName);
        }
      }
    }
    TakeAll(cites);
    var text := SourcesHeader;
    for j := 0 to |keys|
      invariant text == SourcesHeader + Sections(keys[..j], cites)
    {
      var fileName := keys[j];
      var contents := fileExcerpts[fileName];
      ghost var before := text;
      var fileHeader := "**File:** `" + fileName + "`\n";
      text := text + fileHeader;
      for k := 0 to |contents|
        invariant text == before + fileHeader + ExcerptLines(contents[..k])
      {
        var line := "> **Excerpt " + NatToString(k + 1) + ":** " + Strip(contents[k]) + "\n";
        text := text + line;
        assert text == before + fileHeader + ExcerptLines(contents[..k + 1]) by {
          ExcerptLinesStep(contents, k);
          AppendAssoc(before + fileHeader, ExcerptLines(contents[..k]), line);
        }
      }
      text := text + "\n";
      assert text == SourcesHeader + Sections(keys[..j + 1], cites) by {
        TakeAll(contents);
        AppendAssoc(before, fileHeader, ExcerptLines(contents));
        AppendAssoc(before, fileHeader + ExcerptLines(contents), "\n");
        SectionsStep(keys, j, cites);
        AppendAssoc(SourcesHeader, Sections(keys[..j], cites), FileSection(fileName, contents));
      }
    }
    TakeAll(keys);
    r := Some(text);
  }

  lemma CiteStep(cites: seq<SourceDocument>, i: nat)
    requires i < |cites|
    ensures FileOrder(cites[..i + 1]) ==
      if cites[i].fileName in FileOrder(cites[..i]) then FileOrder(cites[..i])
      else FileOrder(cites[..i]) + [cites[i].fileName]
    ensures forall f :: ExcerptsOf(cites[..i + 1], f) ==
                          ExcerptsOf(cites[..i], f) + (if cites[i].fileName == f then [cites[i].chunkContent] else [])
  {
    assert cites[..i + 1][..i] == cites[..i];
  }

  lemma ExcerptLinesStep(contents: seq<string>, k: nat)
    requires k < |contents|
    ensures ExcerptLines(contents[..k + 1]) == ExcerptLines(contents[..k]) + ExcerptLine(k + 1, contents[k])
  {
    assert contents[..k + 1][..k] == contents[..k];
  }

  lemma SectionsStep(files: seq<string>, j: nat, cites: seq<SourceDocument>)
    requires j < |files|
    ensures Sections(files[..j + 1], cites) == Sections(files[..j], cites) + FileSection(files[j], ExcerptsOf(cites, files[j]))
  {
    assert files[..j + 1][..j] == files[..j];
  }

  /** A file that no citation names has no excerpts. */
  lemma {:induction false} ExcerptsOfAbsent(cites: seq<SourceDocument>, fileName: string)
    requires fileName !in FileOrder(cites)
    ensures ExcerptsOf(cites, fileName) == []
  {
    if cites != [] {
      ExcerptsOfAbsent(cites[..|cites| - 1], fileName);
    }
  }

  /** Empty citations give no display text; any other list gives text that
      starts with the header. */
  lemma SourcesDisplayShape(cites: seq<SourceDocument>)
    ensures SourcesDisplay(cites).None? <==> cites == []
    ensures cites != [] ==> SourcesDisplay(cites).value[..|SourcesHeader|] == SourcesHeader
  {
  }

  /** Each file gets one section: the file order has no repeats. */
  lemma {:induction false} FileOrderDistinct(cites: seq<SourceDocument>)
    ensures forall j, k :: 0 <= j < k < |FileOrder(cites)| ==> FileOrder(cites)[j] != FileOrder(cites)[k]
  {
    if cites != [] {
      FileOrderDistinct(cites[..|cites| - 1]);
    }
  }

  /** A file has a section exactly when some citation names it. */
  lemma {:induction false} FileOrderCovers(cites: seq<SourceDocument>, fileName: string)
    ensures fileName in FileOrder(cites) <==> exists i :: 0 <= i < |cites| && cites[i].fileName == fileName
  {
    if cites != [] {
      var prefix := cites[..|cites| - 1];
      FileOrderCovers(prefix, fileName);
      if exists i :: 0 <= i < |prefix| && prefix[i].fileName == fileName {
        var i :| 0 <= i < |prefix| && prefix[i].fileName == fileName;
        assert cites[i].fileName == fileName;
      }
      if exists i :: 0 <= i < |cites| && cites[i].fileName == fileName {
        var i :| 0 <= i < |cites| && cites[i].fileName == fileName;
        if i < |prefix| { assert prefix[i].fileName == fileName; }
      }
    }
  }

  /** First-appearance order: the files named in any prefix of the citations
      come first, in the same order, so a file's section precedes that of
      every file first cited after it. */
  lemma {:induction false} FileOrderPrefix(cites: seq<SourceDocument>, i: nat)
    requires i <= |cites|
    ensures FileOrder(cites[..i]) <= FileOrder(cites)
  {
    if i < |cites| {
      var prefix := cites[..|cites| - 1];
      assert prefix[..i] == cites[..i];
      FileOrderPrefix(prefix, i);
    } else {
      assert cites[..i] == cites;
    }
  }

  /** The number of excerpts over the files in `files`. */
  function ExcerptCount(files: seq<string>, cites: seq<SourceDocument>): nat {
    if files == [] then 0
    else ExcerptCount(files[..|files| - 1], cites) + |ExcerptsOf(cites, files[|files| - 1])|
  }

  /** Every citation becomes exactly one excerpt line: over all sections
      there are as many excerpts as citations. */
  lemma {:induction false} ExcerptCountIsCitationCount(cites: seq<SourceDocument>)
    ensures ExcerptCount(FileOrder(cites), cites) == |cites|
  {
    if cites != [] {
      var prefix := cites[..|cites| - 1];
      var c := cites[|cites| - 1];
      var files := FileOrder(prefix);
      ExcerptCountIsCitationCount(prefix);
      FileOrderDistinct(prefix);
      assert prefix + [c] == cites;
      ExcerptCountAfterCite(files, prefix, c);
      if c.fileName !in files {
        ExcerptsOfAbsent(prefix, c.fileName);
        assert FileOrder(cites) == files + [c.fileName];
        assert (files + [c.fileName])[..|files|] == files;
      }
    }
  }

  /** Citing `c` once more adds one excerpt to a list of distinct files that
      names `c`'s file, and none to a list that does not. */
  lemma {:induction false} ExcerptCountAfterCite(files: seq<string>, cites: seq<SourceDocument>, c: SourceDocument)
    requires forall j, k :: 0 <= j < k < |files| ==> files[j] != files[k]
    ensures ExcerptCount(files, cites + [c]) ==
      ExcerptCount(files, cites) + (if c.fileName in files then 1 else 0)
  {
    var extended := cites + [c];
    assert extended[..|extended| - 1] == cites;
    if files != [] {
      var init := files[..|files| - 1];
      var f := files[|files| - 1];
      ExcerptCountAfterCite(init, cites, c);
      assert files == init + [f];
      assert c.fileName in files <==> c.fileName in init || c.fileName == f;
      assert f !in init;
    }
  }

  // ---------------------------------------------------------------------------
  // Answering a question
  // ---------------------------------------------------------------------------

  /** The canned answer returned when retrieval finds nothing. */
  const NoInformation := StructuredAnswer(NoInformationAnswer, [])

  /** `get_rag_response`: reject a blank question, retrieve, short-circuit on
      an empty retrieval, otherwise hand the question and the formatted
      context to the structured-output chain and return its answer as is.
      Exceptions of the retriever and of the chain propagate unchanged. */
  function GetRagResponse(
    question: string,
    retrieve: string -> Result<seq<Document>>,
    generate: (string, string) -> Result<StructuredAnswer>
  ): (r: Result<StructuredAnswer>)
    ensures r.Ok? ==> !AllSpace(question) && retrieve(question).Ok?
    ensures r.Ok? && r.value.sourcesCited != [] ==> retrieve(question).value != []
  {
    BlankIffAllSpace(question);
    if Strip(question) == [] then Err(ValueErr(EmptyQuestionMessage))
    else
      match retrieve(question)
      case Err(e) => Err(e)
      case Ok(docs) =>
        if docs == [] then Ok(NoInformation)
        else
          match generate(question, FormattedContext(docs))
          case Err(e) => Err(e)
          case Ok(response) => Ok(StructuredAnswer(response.answer, response.sourcesCited))
  }

  /** An empty or whitespace-only question is a ValueError whatever the
      retriever and the chain would do: neither is consulted. */
  lemma BlankQuestionRejected(
    question: string,
    retrieve: string -> Result<seq<Document>>, generate: (string, string) -> Result<StructuredAnswer>,
    retrieve': string -> Result<seq<Document>>, generate': (string, string) -> Result<StructuredAnswer>)
    requires AllSpace(question)
    ensures GetRagResponse(question, retrieve, generate) == Err(ValueErr(EmptyQuestionMessage))
    ensures GetRagResponse(question, retrieve, generate) == GetRagResponse(question, retrieve', generate')
  {
    BlankIffAllSpace(question);
  }

  /** A question with some non-whitespace character gets past the guard:
      the outcome is decided by what the retriever returns for it. */
  lemma NonBlankQuestionRetrieves(
    question: string,
    retrieve: string -> Result<seq<Document>>, generate: (string, string) -> Result<StructuredAnswer>)
    requires !AllSpace(question)
    ensures retrieve(question).Err? ==> GetRagResponse(question, retrieve, generate) == Err(retrieve(question).error)
    ensures retrieve(question) == Ok([]) ==> GetRagResponse(question, retrieve, generate) == Ok(NoInformation)
    ensures retrieve(question).Ok? && retrieve(question).value != [] ==>
      GetRagResponse(question, retrieve, generate) == generate(question, FormattedContext(retrieve(question).value))
  {
    BlankIffAllSpace(question);
  }

  /** When retrieval finds nothing the chain is not consulted: any two
      chains give the same canned answer, with no citations. */
  lemma EmptyRetrievalSkipsModel(
    question: string, retrieve: string -> Result<seq<Document>>,
    generate: (string, string) -> Result<StructuredAnswer>, generate': (string, string) -> Result<StructuredAnswer>)
    requires !AllSpace(question) && retrieve(question) == Ok([])
    ensures GetRagResponse(question, retrieve, generate) == GetRagResponse(question, retrieve, generate')
    ensures GetRagResponse(question, retrieve, generate).Ok?
    ensures GetRagResponse(question, retrieve, generate).value.sourcesCited == []
  {
    BlankIffAllSpace(question);
  }
}
