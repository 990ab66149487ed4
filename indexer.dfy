/** The file indexer and the semantic search of the retrieval layer: text
    extraction dispatched on the file suffix, the metadata stored with each
    indexed file, the batch statistics and the search filter. Reading a
    file, parsing a PDF or DOCX document, computing an embedding and the
    vector store itself are inputs. */
module Indexer {
  import opened Common
  import opened Strings
  import opened Paths
  import opened Records
  import WebRequests

  /** The suffixes read as plain text. */
  const TextSuffixes: seq<string> := [".txt", ".md", ".py", ".js", ".html", ".css", ".json"]

  /** What the readers make of a file: its text, its PDF page texts and its
      DOCX paragraph texts; `None` where opening or parsing raises. A page
      without text is the empty string. */
  datatype Document = Document(text: Option<string>, pages: Option<seq<string>>, paragraphs: Option<seq<string>>)

  /** Whether the optional PDF and DOCX libraries are installed. */
  datatype Libraries = Libraries(pypdf: bool, docx: bool)

  /** The page texts that are not empty, in page order. */
  function NonEmpty(pages: seq<string>): (r: seq<string>)
    ensures forall x :: x in r <==> x in pages && x != ""
    ensures |r| <= |pages|
    ensures (forall i :: 0 <= i < |pages| ==> pages[i] != "") ==> r == pages
    decreases |pages|
  {
    if pages == [] then []
    else
      var init := NonEmpty(pages[..|pages| - 1]);
      var last := pages[|pages| - 1];
      assert pages == pages[..|pages| - 1] + [last];
      if last == "" then init else init + [last]
  }

  /** The lower-cased final suffix `Path(file_path).suffix.lower()`. */
  function Extension(path: string): string
  {
    Lower(Suffix(path))
  }

  /** `_extract_text`: text files are read whole; a PDF gives its non-empty
      page texts joined by newlines and a DOCX its paragraph texts; a
      missing library, an unsupported suffix or any exception gives `None`. */
  function ExtractedText(path: string, doc: Document, libs: Libraries): (r: Option<string>)
    ensures r.Some? ==> Extension(path) in TextSuffixes || Extension(path) == ".pdf" || Extension(path) == ".docx"
    ensures Extension(path) in TextSuffixes ==> r == doc.text
    ensures Extension(path) == ".pdf" ==>
              (r.Some? <==> libs.pypdf && doc.pages.Some?) &&
              (r.Some? ==> r.value == Join(NonEmpty(doc.pages.value), "\n"))
    ensures Extension(path) == ".docx" ==>
              (r.Some? <==> libs.docx && doc.paragraphs.Some?) &&
              (r.Some? ==> r.value == Join(doc.paragraphs.value, "\n"))
  {
    var ext := Extension(path);
    if ext in TextSuffixes then doc.text
    else if ext == ".pdf" then
      if !libs.pypdf || doc.pages.None? then None else Some(Join(NonEmpty(doc.pages.value), "\n"))
    else if ext == ".docx" then
      if !libs.docx || doc.paragraphs.None? then None else Some(Join(doc.paragraphs.value, "\n"))
    else None
  }

  /** The PDF branch: page texts that are not empty are collected in order. */
  method PdfText(pages: seq<string>) returns (r: string)
    ensures r == Join(NonEmpty(pages), "\n")
  {
    var text: seq<string> := [];
    var i := 0;
    while i < |pages|
      invariant 0 <= i <= |pages|
      invariant text == NonEmpty(pages[..i])
    {
      assert pages[..i + 1][..i] == pages[..i];
      if pages[i] != "" {
        text := text + [pages[i]];
      }
      i := i + 1;
    }
    assert pages[..|pages|] == pages;
    r := Join(text, "\n");
  }

  /** `_extract_text`, with the PDF pages gathered by a loop. */
  method ExtractText(path: string, doc: Document, libs: Libraries) returns (r: Option<string>)
    ensures r == ExtractedText(path, doc, libs)
  {
    var ext := Extension(path);
    if ext in TextSuffixes {
      r := doc.text;
    } else if ext == ".pdf" {
      if !libs.pypdf || doc.pages.None? {
        r := None;
      } else {
        var t := PdfText(doc.pages.value);
        r := Some(t);
      }
    } else if ext == ".docx" {
      if !libs.docx || doc.paragraphs.None? {
        r := None;
      } else {
        r := Some(Join(doc.paragraphs.value, "\n"));
      }
    } else {
      r := None;
    }
  }

  /** A single-page PDF gives that page's text, whatever the other pages,
      when they are all empty. */
  lemma PdfEmptyPagesDropped(path: string, doc: Document, libs: Libraries, k: nat)
    requires Extension(path) == ".pdf" && libs.pypdf && doc.pages.Some? && k < |doc.pages.value|
    requires forall i :: 0 <= i < |doc.pages.value| && i != k ==> doc.pages.value[i] == ""
    ensures ExtractedText(path, doc, libs) == Some(doc.pages.value[k])
  {
    var pages := doc.pages.value;
    if pages[k] == "" {
      NonEmptyAllEmpty(pages);
    } else {
      NonEmptySingle(pages, k);
    }
  }

  lemma NonEmptyAllEmpty(pages: seq<string>)
    requires forall i :: 0 <= i < |pages| ==> pages[i] == ""
    ensures NonEmpty(pages) == []
  {
  }

  lemma {:induction false} NonEmptySingle(pages: seq<string>, k: nat)
    requires k < |pages| && pages[k] != ""
    requires forall i :: 0 <= i < |pages| && i != k ==> pages[i] == ""
    ensures NonEmpty(pages) == [pages[k]]
    decreases |pages|
  {
    var init := pages[..|pages| - 1];
    if k == |pages| - 1 {
      NonEmptyAllEmpty(init);
    } else {
      NonEmptySingle(init, k);
    }
  }

  /** The embedding vector of a text (floating-point values). */
  type Embedding = seq<real>

  /** One call of `vector_store.add`: parallel lists of ids, embeddings,
      documents and metadata dictionaries. */
  datatype AddCall = AddCall(ids: seq<string>, embeddings: seq<Embedding>, documents: seq<string>, metadatas: seq<map<string, Json>>)

  /** The metadata stored with an indexed file: identity, service, path,
      base name and size, then the caller's metadata over it. */
  function FileMetadataMap(fileId: string, service: string, filePath: string, size: int, metadata: Option<map<string, Json>>): (r: map<string, Json>)
    ensures r.Keys == {"file_id", "service", "file_path", "file_name", "file_size"} + (if metadata.Some? then metadata.value.Keys else {})
    ensures metadata.Some? ==> forall k :: k in metadata.value ==> r[k] == metadata.value[k]
    ensures metadata.None? || "file_id" !in metadata.value ==> r["file_id"] == JStr(fileId)
    ensures metadata.None? || "service" !in metadata.value ==> r["service"] == JStr(service)
    ensures metadata.None? || "file_path" !in metadata.value ==> r["file_path"] == JStr(filePath)
    ensures metadata.None? || "file_name" !in metadata.value ==> r["file_name"] == JStr(BaseName(filePath))
    ensures metadata.None? || "file_size" !in metadata.value ==> r["file_size"] == JInt(size)
  {
    var base := map["file_id" := JStr(fileId), "service" := JStr(service), "file_path" := JStr(filePath),
                    "file_name" := JStr(BaseName(filePath)), "file_size" := JInt(size)];
    if metadata.Some? && metadata.value != map[] then base + metadata.value else base
  }

  /** `index_files`' statistics. */
  datatype IndexStats = IndexStats(success: nat, failed: nat, skipped: nat)

  /** `{'service': service} if service else None`: a filter only for a
      non-empty service name. */
  function SearchFilter(service: Option<string>): (r: Option<map<string, Json>>)
    ensures r.Some? <==> service.Some? && service.value != ""
    ensures r.Some? ==> r.value == map["service" := JStr(service.value)]
  {
    if service.Some? && service.value != "" then Some(map["service" := JStr(service.value)]) else None
  }

  /** A validated search request that names a service always filters on it. */
  lemma SearchRequestFilters(req: WebRequests.SearchRequest)
    requires req.Valid() && req.service.Some?
    ensures SearchFilter(req.service) == Some(map["service" := JStr(req.service.value)])
  {
  }

  /** `SemanticSearch.search`: the query is embedded and the store searched
      with the service filter; any failure is re-raised as "Search failed: ...". */
  function Search(query: string, topK: int, service: Option<string>, embed: string -> Result<Embedding, string>,
                  storeSearch: (Embedding, int, Option<map<string, Json>>) -> Result<seq<map<string, Json>>, string>)
    : (r: Result<seq<map<string, Json>>, string>)
    ensures embed(query).Err? ==> r == Err("Search failed: " + embed(query).error)
    ensures embed(query).Ok? ==> var found := storeSearch(embed(query).value, topK, SearchFilter(service));
              (found.Ok? ==> r == found) && (found.Err? ==> r == Err("Search failed: " + found.error))
  {
    var e := embed(query);
    if e.Err? then Err("Search failed: " + e.error)
    else
      var found := storeSearch(e.value, topK, SearchFilter(service));
      if found.Err? then Err("Search failed: " + found.error) else found
  }

  /** `FileIndexer`, with the calls it has made to its vector store. */
  class FileIndexer {
    var added: seq<AddCall>

    constructor ()
      ensures added == []
    {
      added := [];
    }

    /** `index_file`: extracts the text, embeds it and adds one entry with
        its metadata. An empty or missing text stops before the embedding;
        any exception (embedding, file size, store) gives false. `embed` is
        the embedding generator, `fileSize` what `os.path.getsize` returns
        (`None` when it raises) and `addSucceeds` whether the store accepts
        the entry. */
    method IndexFile(filePath: string, fileId: string, service: string, metadata: Option<map<string, Json>>,
                     doc: Document, libs: Libraries, embed: string -> Result<Embedding, string>,
                     fileSize: Option<int>, addSucceeds: bool)
      returns (ok: bool)
      modifies this
      ensures var text := ExtractedText(filePath, doc, libs);
              (ok <==> text.Some? && text.value != "" && embed(text.value).Ok? && fileSize.Some? && addSucceeds) &&
              (!ok ==> added == old(added)) &&
              (ok ==> added == old(added) + [AddCall([fileId], [embed(text.value).value], [text.value],
                                                     [FileMetadataMap(fileId, service, filePath, fileSize.value, metadata)])])
    {
      var text := ExtractText(filePath, doc, libs);
      if text.None? || text.value == "" {
        return false;
      }
      var embedding := embed(text.value);
      if embedding.Err? || fileSize.None? {
        return false;
      }
      var fileMetadata := FileMetadataMap(fileId, service, filePath, fileSize.value, metadata);
      if !addSucceeds {
        return false;
      }
      added := added + [AddCall([fileId], [embedding.value], [text.value], [fileMetadata])];
      return true;
    }

    /** `index_files`: nothing is downloaded yet, so every file is counted
        as skipped. */
    method IndexFiles(files: seq<RawFile>, service: string) returns (stats: IndexStats)
      ensures stats == IndexStats(0, 0, |files|)
    {
      stats := IndexStats(0, 0, 0);
      var i := 0;
      while i < |files|
        invariant 0 <= i <= |files|
        invariant stats == IndexStats(0, 0, i)
      {
        stats := stats.(skipped := stats.skipped + 1);
        i := i + 1;
      }
    }
  }
}
