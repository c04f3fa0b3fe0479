/** The control logic of the OCR tool `PDFOCR`: parsing the language list,
    the reuse rule of the OCR reader slot, assembling per-page records, the
    result of one extraction, and the cache-first request flow.  The PDF
    rasteriser, the OCR engine, the path validator, the page-range parser,
    the chunker and the JSON renderer are collaborators whose behaviour is
    given as functions in `Collaborators`. */
module PdfOcr {
  import opened Wrappers
  import opened PyText
  import opened OcrResults

  /** `extraction_method` of every response, successful or not. */
  const ExtractionMethod := "easyocr"
  /** The operation name under which OCR results are cached. */
  const Operation := "ocr_extract"
  /** The overlap `_perform_ocr_extraction` hands to the chunker. */
  const ChunkOverlap := 100
  /** The cache configuration set up by the tool's constructor. */
  const CacheMaxEntries := 30
  const CacheMaxAgeSeconds := 3600

  const Pdf2ImageMissing := "pdf2image is not installed. Please install it with: pip install pdf2image"
  const EasyOcrMissing := "EasyOCR is not installed. Please install it with: pip install easyocr"
  const NoValidPages := "No valid pages specified"
  const RequestFailed := "Error performing OCR: "
  const ProcessingFailed := "OCR processing failed: "
  const ReaderInitFailed := "Failed to initialize EasyOCR: "

  /** An OCR reader: the languages stored on it for later comparison and the
      GPU flag it was built with. */
  datatype Reader = Reader(languages: seq<string>, gpu: bool)

  /** The `metadata` of one page record.  `confidences` are the scores that
      `average_confidence` averages. */
  datatype PageMetadata = PageMetadata(
    ocrLanguage: string,
    confidences: seq<real>,
    textBlocks: nat,
    charCount: nat,
    wordCount: nat)

  /** One entry of `pages_content`, the chunker's input. */
  datatype PageData = PageData(text: string, pageNumber: nat, metadata: PageMetadata)

  /** A chunk as the chunker produces it; its metadata is carried opaquely. */
  datatype Chunk = Chunk(content: string, pageNumber: int, chunkIndex: int, metadata: string)

  /** The successful result of `_perform_ocr_extraction` (before rendering);
      `success` is true and `extraction_method` is `ExtractionMethod`. */
  datatype OcrResult = OcrResult(
    filePath: string,
    totalPages: nat,
    processedPages: seq<nat>,
    ocrLanguage: string,
    chunks: seq<Chunk>,
    summary: string,
    totalTextBlocks: nat)

  /** A response: `Failure` is `_error_response(error)` (`success` false,
      `extraction_method` equal to `ExtractionMethod`), `Success` is
      `_format_result(result)`. */
  datatype Response = Failure(error: string) | Success(result: OcrResult)

  /** The extraction parameters that make up the cache key. */
  datatype OcrParams = OcrParams(pages: Option<string>, language: string, chunkSize: int, useGpu: bool)

  /** The cache key: validated path, operation name and parameters. */
  datatype CacheKey = CacheKey(path: string, operation: string, params: OcrParams)

  /** The collaborators, each as the function of its inputs it computes; an
      `Err` or `Some` error stands for the exception it raises, with the
      exception's text. */
  datatype Collaborators = Collaborators(
    // whether the optional pdf2image and easyocr libraries could be imported
    pdf2ImageInstalled: bool,
    easyOcrInstalled: bool,
    // the path validator: the canonical path of a valid PDF
    validatePdfPath: string -> Result<string>,
    // the rasteriser: the number of page images of the document
    pageCount: string -> Result<nat>,
    // the page-range parser: zero-based page indices for a selector and a page count
    parsePageRange: (Option<string>, nat) -> Result<seq<nat>>,
    // the error the engine raises when building a reader for these languages and GPU flag, if any
    readerInitError: (seq<string>, bool) -> Option<string>,
    // the engine's detections on the image of one page of the document
    readText: (Reader, string, nat) -> Result<seq<OcrRecord>>,
    // the chunker, given chunk size, overlap and page records
    chunkPages: (int, int, seq<PageData>) -> Result<seq<Chunk>>,
    // the chunker's summary of its chunks, rendered, or the error it raised
    chunksSummary: seq<Chunk> -> Result<string>)

  // ---------------------------------------------------------------- languages

  /** The language list of a request: one entry per comma-separated field
      of `language` (one more than there are commas), in order, each the
      field with its surrounding whitespace removed. */
  function ParseLanguages(language: string): (r: seq<string>)
    ensures |r| == Count(language, ',') + 1
    ensures forall i :: 0 <= i < |r| ==> r[i] == Strip(Split(language, ',')[i])
  {
    var fields := Split(language, ',');
    seq(|fields|, i requires 0 <= i < |fields| => Strip(fields[i]))
  }

  /** No parsed language contains a comma or surrounding whitespace. */
  lemma ParsedLanguagesAreClean(language: string)
    ensures forall i :: 0 <= i < |ParseLanguages(language)| ==>
      var lang := ParseLanguages(language)[i];
      ',' !in lang && (lang == [] || (!IsSpace(lang[0]) && !IsSpace(lang[|lang| - 1])))
  {
    var fields := Split(language, ',');
    SplitFieldsLackSep(language, ',');
    forall i | 0 <= i < |fields| ensures ',' !in Strip(fields[i]) {
      StripIsTrimmed(fields[i]);
    }
  }

  /** Writing a language list as a comma-separated string and parsing it
      gives the list back, provided its entries have no commas and no
      surrounding whitespace. */
  lemma ParseLanguagesOfJoin(languages: seq<string>)
    requires languages != []
    requires forall i :: 0 <= i < |languages| ==>
      ',' !in languages[i] && (languages[i] == [] || (!IsSpace(languages[i][0]) && !IsSpace(languages[i][|languages[i]| - 1])))
    ensures ParseLanguages(Join(",", languages)) == languages
  {
    SplitJoin(languages, ',');
    assert [','] == ",";
    var r := ParseLanguages(Join(",", languages));
    forall i | 0 <= i < |languages| ensures r[i] == languages[i] {
      StripOfTrimmed(languages[i]);
    }
  }

  // ---------------------------------------------------------------- reader slot

  /** `_get_ocr_reader` builds a new reader iff there is none or the stored
      language list differs from the requested one. */
  predicate NeedsNewReader(current: Option<Reader>, languages: seq<string>) {
    current.None? || current.value.languages != languages
  }

  /** What `_get_ocr_reader` returns from the slot `current`. */
  function ObtainReader(env: Collaborators, current: Option<Reader>, languages: seq<string>, useGpu: bool): Result<Reader> {
    if !env.easyOcrInstalled then Err(EasyOcrMissing)
    else if NeedsNewReader(current, languages) then
      match env.readerInitError(languages, useGpu)
      case Some(e) => Err(ReaderInitFailed + e)
      case None => Ok(Reader(languages, useGpu))
    else Ok(current.value)
  }

  /** The slot after `_get_ocr_reader`: a reader it returns is stored, an
      exception leaves the slot as it was. */
  function SlotAfter(current: Option<Reader>, obtained: Result<Reader>): Option<Reader> {
    if obtained.Ok? then Some(obtained.value) else current
  }

  /** A request that changes only the GPU flag reuses the existing reader,
      GPU setting included. */
  lemma GpuFlagAloneKeepsReader(env: Collaborators, languages: seq<string>, gpu: bool, useGpu: bool)
    requires env.easyOcrInstalled
    ensures ObtainReader(env, Some(Reader(languages, gpu)), languages, useGpu) == Ok(Reader(languages, gpu))
  {
  }

  // ---------------------------------------------------------------- pages

  /** The page record for page `index` (zero-based), or the engine's error. */
  function OcrPage(env: Collaborators, reader: Reader, path: string, language: string, index: nat): Result<PageData> {
    match env.readText(reader, path, index)
    case Err(e) => Err(e)
    case Ok(records) =>
      var text := Join(" ", Blocks(records));
      Ok(PageData(text, index + 1,
        PageMetadata(language, Scores(Kept(records)), |Kept(records)|, |text|, |Words(text)|)))
  }

  /** The requested indices that are in range, in request order. */
  function InRange(indices: seq<nat>, totalPages: nat): (r: seq<nat>)
    ensures |r| <= |indices|
    ensures forall i :: i in r <==> i in indices && i < totalPages
  {
    if indices == [] then []
    else
      var init, last := indices[..|indices| - 1], indices[|indices| - 1];
      assert indices == init + [last];
      InRange(init, totalPages) + (if last < totalPages then [last] else [])
  }

  /** `pages_content` after the page loop: a record per in-range requested
      index, in request order, or the first engine error. */
  function AssembledPages(env: Collaborators, reader: Reader, path: string, language: string,
                          totalPages: nat, indices: seq<nat>): Result<seq<PageData>>
  {
    if indices == [] then Ok([])
    else
      var init, last := indices[..|indices| - 1], indices[|indices| - 1];
      NextPage(env, reader, path, language, totalPages,
               AssembledPages(env, reader, path, language, totalPages, init), last)
  }

  /** One turn of the page loop: after an error nothing more happens, an
      index past the last page is skipped, any other page is appended or
      its error ends the loop. */
  function NextPage(env: Collaborators, reader: Reader, path: string, language: string,
                    totalPages: nat, sofar: Result<seq<PageData>>, index: nat): Result<seq<PageData>>
  {
    match sofar
    case Err(e) => Err(e)
    case Ok(pages) =>
      if index >= totalPages then Ok(pages)
      else
        match OcrPage(env, reader, path, language, index)
        case Err(e) => Err(e)
        case Ok(page) => Ok(pages + [page])
  }

  lemma AssembledStep(env: Collaborators, reader: Reader, path: string, language: string,
                      totalPages: nat, indices: seq<nat>, k: nat)
    requires k < |indices|
    ensures AssembledPages(env, reader, path, language, totalPages, indices[..k + 1]) ==
      NextPage(env, reader, path, language, totalPages,
               AssembledPages(env, reader, path, language, totalPages, indices[..k]), indices[k])
  {
    assert indices[..k + 1][..k] == indices[..k];
  }

  /** Once a page fails, the whole assembly fails with that page's error. */
  lemma {:induction false} AssembledErrorPersists(env: Collaborators, reader: Reader, path: string, language: string,
                                                  totalPages: nat, indices: seq<nat>, k: nat, e: string)
    requires k <= |indices|
    requires AssembledPages(env, reader, path, language, totalPages, indices[..k]) == Err(e)
    ensures AssembledPages(env, reader, path, language, totalPages, indices) == Err(e)
    decreases |indices| - k
  {
    if k == |indices| {
      assert indices[..k] == indices;
    } else {
      AssembledStep(env, reader, path, language, totalPages, indices, k);
      AssembledErrorPersists(env, reader, path, language, totalPages, indices, k + 1, e);
    }
  }

  lemma OcrPageIs(env: Collaborators, reader: Reader, path: string, language: string, index: nat,
                  text: string, info: ConfidenceInfo)
    requires env.readText(reader, path, index).Ok?
    requires text == Join(" ", Blocks(env.readText(reader, path, index).value))
    requires info.blockCount == |Kept(env.readText(reader, path, index).value)|
    requires info.scores == Scores(Kept(env.readText(reader, path, index).value))
    ensures OcrPage(env, reader, path, language, index) ==
      Ok(PageData(text, index + 1, PageMetadata(language, info.scores, info.blockCount, |text|, |Words(text)|)))
  {
  }

  /** The page loop of `_perform_ocr_extraction`: skip indices past the last
      page, OCR the others in order and collect their records; an engine
      error ends the loop. */
  method AssemblePages(env: Collaborators, reader: Reader, path: string, language: string,
                       totalPages: nat, pageNumbers: seq<nat>) returns (r: Result<seq<PageData>>)
    ensures r == AssembledPages(env, reader, path, language, totalPages, pageNumbers)
  {
    var pagesContent: seq<PageData> := [];
    for k := 0 to |pageNumbers|
      invariant AssembledPages(env, reader, path, language, totalPages, pageNumbers[..k]) == Ok(pagesContent)
    {
      AssembledStep(env, reader, path, language, totalPages, pageNumbers, k);
      var pageNum := pageNumbers[k];
      if pageNum >= totalPages {
        continue;
      }
      var ocrResults := env.readText(reader, path, pageNum);
      if ocrResults.Err? {
        AssembledErrorPersists(env, reader, path, language, totalPages, pageNumbers, k + 1, ocrResults.message);
        return Err(ocrResults.message);
      }
      var pageText, confidenceInfo := ProcessOcrResults(ocrResults.value);
      var pageData := PageData(pageText, pageNum + 1,
        PageMetadata(language, confidenceInfo.scores, confidenceInfo.blockCount, |pageText|, |Words(pageText)|));
      OcrPageIs(env, reader, path, language, pageNum, pageText, confidenceInfo);
      pagesContent := pagesContent + [pageData];
    }
    assert pageNumbers[..|pageNumbers|] == pageNumbers;
    return Ok(pagesContent);
  }

  /** The record of requested page `index`: numbered from one, with
      `char_count` the text's length, `word_count` its number of
      whitespace-separated words (never fewer than its text blocks) and
      the request's language. */
  predicate PageRecordFor(page: PageData, index: nat, language: string) {
    && page.pageNumber == index + 1
    && page.metadata.charCount == |page.text|
    && page.metadata.wordCount == |Words(page.text)|
    && page.metadata.textBlocks <= page.metadata.wordCount
    && page.metadata.ocrLanguage == language
  }

  lemma OcrPageIsRecordFor(env: Collaborators, reader: Reader, path: string, language: string, index: nat)
    requires OcrPage(env, reader, path, language, index).Ok?
    ensures PageRecordFor(OcrPage(env, reader, path, language, index).value, index, language)
  {
    PageWordCount(env.readText(reader, path, index).value);
  }

  /** The page records follow the request: one per in-range index, in
      request order, each the record the engine's detections on that
      page give, and so numbered, counted and labelled as its index. */
  lemma {:induction false} PagesFollowRequest(env: Collaborators, reader: Reader, path: string, language: string,
                                              totalPages: nat, indices: seq<nat>, pages: seq<PageData>)
    requires AssembledPages(env, reader, path, language, totalPages, indices) == Ok(pages)
    ensures |pages| == |InRange(indices, totalPages)|
    ensures forall k :: 0 <= k < |pages| ==>
      && OcrPage(env, reader, path, language, InRange(indices, totalPages)[k]).Ok?
      && pages[k] == OcrPage(env, reader, path, language, InRange(indices, totalPages)[k]).value
    ensures forall k :: 0 <= k < |pages| ==> PageRecordFor(pages[k], InRange(indices, totalPages)[k], language)
  {
    if indices != [] {
      var init, last := indices[..|indices| - 1], indices[|indices| - 1];
      var prev := AssembledPages(env, reader, path, language, totalPages, init).value;
      var before := InRange(init, totalPages);
      PagesFollowRequest(env, reader, path, language, totalPages, init, prev);
      if last < totalPages {
        OcrPageIsRecordFor(env, reader, path, language, last);
        assert pages == prev + [OcrPage(env, reader, path, language, last).value];
        assert InRange(indices, totalPages) == before + [last];
      } else {
        assert pages == prev;
        assert InRange(indices, totalPages) == before;
      }
    }
  }

  /** Assembly succeeds iff the engine succeeds on every in-range index. */
  lemma {:induction false} AssemblyOkIffPagesOk(env: Collaborators, reader: Reader, path: string, language: string,
                                                totalPages: nat, indices: seq<nat>)
    ensures AssembledPages(env, reader, path, language, totalPages, indices).Ok? <==>
      forall i :: i in InRange(indices, totalPages) ==> OcrPage(env, reader, path, language, i).Ok?
  {
    if indices != [] {
      var init, last := indices[..|indices| - 1], indices[|indices| - 1];
      AssemblyOkIffPagesOk(env, reader, path, language, totalPages, init);
      assert InRange(indices, totalPages) ==
        InRange(init, totalPages) + (if last < totalPages then [last] else []);
    }
  }

  // ---------------------------------------------------------------- one extraction

  /** `processed_pages`: every requested index made one-based, skipped or not. */
  function ProcessedPages(indices: seq<nat>): seq<nat> {
    seq(|indices|, i requires 0 <= i < |indices| => indices[i] + 1)
  }

  /** `total_text_blocks`: the sum of the pages' block counts. */
  function TotalTextBlocks(pages: seq<PageData>): nat {
    if pages == [] then 0 else pages[0].metadata.textBlocks + TotalTextBlocks(pages[1..])
  }

  /** `_perform_ocr_extraction` from reader slot `current`: the response and
      the slot afterwards.  Every exception inside is caught and becomes a
      failure prefixed with `ProcessingFailed`. */
  function Extraction(env: Collaborators, current: Option<Reader>, path: string, pagesStr: Option<string>,
                      language: string, chunkSize: int, useGpu: bool): (Response, Option<Reader>)
  {
    match env.pageCount(path)
    case Err(e) => (Failure(ProcessingFailed + e), current)
    case Ok(totalPages) =>
      match env.parsePageRange(pagesStr, totalPages)
      case Err(e) => (Failure(ProcessingFailed + e), current)
      case Ok(pageNumbers) =>
        if pageNumbers == [] then (Failure(NoValidPages), current)
        else
          var obtained := ObtainReader(env, current, ParseLanguages(language), useGpu);
          match obtained
          case Err(e) => (Failure(ProcessingFailed + e), current)
          case Ok(reader) =>
            match AssembledPages(env, reader, path, language, totalPages, pageNumbers)
            case Err(e) => (Failure(ProcessingFailed + e), Some(reader))
            case Ok(pages) =>
              match env.chunkPages(chunkSize, ChunkOverlap, pages)
              case Err(e) => (Failure(ProcessingFailed + e), Some(reader))
              case Ok(chunks) =>
                match env.chunksSummary(chunks)
                case Err(e) => (Failure(ProcessingFailed + e), Some(reader))
                case Ok(summary) =>
                  var result := OcrResult(path, totalPages, ProcessedPages(pageNumbers), language,
                                          chunks, summary, TotalTextBlocks(pages));
                  (Success(result), Some(reader))
  }

  /** A successful extraction lists every requested page in
      `processed_pages` (one-based, in request order), including indices
      past the last page for which no page record exists. */
  lemma ProcessedPagesListSkipped(env: Collaborators, current: Option<Reader>, path: string, pagesStr: Option<string>,
                                  language: string, chunkSize: int, useGpu: bool)
    requires Extraction(env, current, path, pagesStr, language, chunkSize, useGpu).0.Success?
    ensures var res := Extraction(env, current, path, pagesStr, language, chunkSize, useGpu).0.result;
      var indices := env.parsePageRange(pagesStr, res.totalPages).value;
      && indices != []
      && |res.processedPages| == |indices|
      && (forall k :: 0 <= k < |indices| ==> res.processedPages[k] == indices[k] + 1)
      && (forall k :: 0 <= k < |indices| && indices[k] >= res.totalPages ==>
            res.processedPages[k] > res.totalPages)
  {
  }

  /** An empty page selection is reported as an error and leaves the reader
      slot alone. */
  lemma EmptySelectionFails(env: Collaborators, current: Option<Reader>, path: string, pagesStr: Option<string>,
                            language: string, chunkSize: int, useGpu: bool)
    requires env.pageCount(path).Ok?
    requires env.parsePageRange(pagesStr, env.pageCount(path).value) == Ok([])
    ensures Extraction(env, current, path, pagesStr, language, chunkSize, useGpu) == (Failure(NoValidPages), current)
  {
  }

  // ---------------------------------------------------------------- request flow

  /** The cache key of a request. */
  function KeyOf(path: string, pagesStr: Option<string>, language: string, chunkSize: int, useGpu: bool): CacheKey {
    CacheKey(path, Operation, OcrParams(pagesStr, language, chunkSize, useGpu))
  }

  /** `extract_text_ocr` from cache contents `entries` and reader slot
      `current`: the response, the cache contents and the slot afterwards. */
  function Request(env: Collaborators, entries: map<CacheKey, Response>, current: Option<Reader>,
                   filePath: string, pagesStr: Option<string>, language: string, chunkSize: int, useGpu: bool)
    : (Response, map<CacheKey, Response>, Option<Reader>)
  {
    if !env.pdf2ImageInstalled then (Failure(Pdf2ImageMissing), entries, current)
    else
      match env.validatePdfPath(filePath)
      case Err(e) => (Failure(RequestFailed + e), entries, current)
      case Ok(path) =>
        var key := KeyOf(path, pagesStr, language, chunkSize, useGpu);
        if key in entries then (entries[key], entries, current)
        else
          var (response, slot) := Extraction(env, current, path, pagesStr, language, chunkSize, useGpu);
          (response, entries[key := response], slot)
  }

  /** A request whose key is cached is answered with the stored response;
      neither the cache nor the reader slot changes. */
  lemma CacheHitReturnsStored(env: Collaborators, entries: map<CacheKey, Response>, current: Option<Reader>,
                              filePath: string, pagesStr: Option<string>, language: string, chunkSize: int, useGpu: bool)
    requires env.pdf2ImageInstalled && env.validatePdfPath(filePath).Ok?
    requires KeyOf(env.validatePdfPath(filePath).value, pagesStr, language, chunkSize, useGpu) in entries
    ensures Request(env, entries, current, filePath, pagesStr, language, chunkSize, useGpu) ==
      (entries[KeyOf(env.validatePdfPath(filePath).value, pagesStr, language, chunkSize, useGpu)], entries, current)
  {
  }

  /** Repeating a request returns the same response and changes nothing:
      the first one either failed before the cache or left its response
      (a failure included) in the cache, where the second one finds it
      without running the extraction. */
  lemma RepeatedRequestIsServedFromCache(env: Collaborators, entries: map<CacheKey, Response>, current: Option<Reader>,
                                         filePath: string, pagesStr: Option<string>, language: string, chunkSize: int, useGpu: bool)
    ensures var (r1, entries1, slot1) := Request(env, entries, current, filePath, pagesStr, language, chunkSize, useGpu);
      Request(env, entries1, slot1, filePath, pagesStr, language, chunkSize, useGpu) == (r1, entries1, slot1)
  {
  }

  /** On a miss the response is stored under the request's key, and every
      other entry is kept. */
  lemma MissStoresResponse(env: Collaborators, entries: map<CacheKey, Response>, current: Option<Reader>,
                           filePath: string, pagesStr: Option<string>, language: string, chunkSize: int, useGpu: bool)
    requires env.pdf2ImageInstalled && env.validatePdfPath(filePath).Ok?
    requires KeyOf(env.validatePdfPath(filePath).value, pagesStr, language, chunkSize, useGpu) !in entries
    ensures var (r, entries1, _) := Request(env, entries, current, filePath, pagesStr, language, chunkSize, useGpu);
      var key := KeyOf(env.validatePdfPath(filePath).value, pagesStr, language, chunkSize, useGpu);
      && entries1.Keys == entries.Keys + {key}
      && entries1[key] == r
      && (forall k :: k in entries ==> entries1[k] == entries[k])
  {
  }

  /** `PDFCache` as the tool uses it: `get` and `set` over the stored
      responses. */
  class ResultCache {
    const maxEntries: nat
    const maxAgeSeconds: nat
    var entries: map<CacheKey, Response>

    constructor (maxEntries: nat, maxAgeSeconds: nat)
      ensures this.maxEntries == maxEntries && this.maxAgeSeconds == maxAgeSeconds
      ensures entries == map[]
    {
      this.maxEntries := maxEntries;
      this.maxAgeSeconds := maxAgeSeconds;
      entries := map[];
    }

    /** The stored response for `key`, if any. */
    method Get(key: CacheKey) returns (r: Option<Response>)
      ensures r.Some? <==> key in entries
      ensures r.Some? ==> r.value == entries[key]
    {
      r := if key in entries then Some(entries[key]) else None;
    }

    /** Store `value` under `key`, replacing what was there. */
    method Set(key: CacheKey, value: Response)
      modifies this
      ensures entries == old(entries)[key := value]
    {
      entries := entries[key := value];
    }
  }

  /** The tool object: its collaborators, its cache and its reader slot. */
  class PdfOcrTool {
    const env: Collaborators
    const cache: ResultCache
    var reader: Option<Reader>

    constructor (env: Collaborators)
      ensures this.env == env && reader == None
      ensures fresh(cache) && cache.entries == map[]
      ensures cache.maxEntries == CacheMaxEntries && cache.maxAgeSeconds == CacheMaxAgeSeconds
    {
      this.env := env;
      cache := new ResultCache(CacheMaxEntries, CacheMaxAgeSeconds);
      reader := None;
    }

    /** `_get_ocr_reader`: keep the reader unless there is none or its
        languages differ from `languages`; a new reader is stored with the
        requested languages. */
    method GetOcrReader(languages: seq<string>, useGpu: bool) returns (r: Result<Reader>)
      modifies this
      ensures r == ObtainReader(env, old(reader), languages, useGpu)
      ensures reader == SlotAfter(old(reader), r)
      ensures reader != old(reader) <==> r.Ok? && NeedsNewReader(old(reader), languages)
      ensures r.Ok? ==> reader == Some(r.value) && r.value.languages == languages
      ensures r.Ok? && !NeedsNewReader(old(reader), languages) ==> r.value.gpu == old(reader).value.gpu
    {
      if !env.easyOcrInstalled {
        return Err(EasyOcrMissing);
      }
      var currentLanguages := if reader.Some? then reader.value.languages else [];
      if reader.None? || currentLanguages != languages {
        var failure := env.readerInitError(languages, useGpu);
        if failure.Some? {
          return Err(ReaderInitFailed + failure.value);
        }
        reader := Some(Reader(languages, useGpu));
      }
      r := Ok(reader.value);
    }

    /** `_perform_ocr_extraction`. */
    method PerformOcrExtraction(path: string, pagesStr: Option<string>, language: string, chunkSize: int, useGpu: bool)
      returns (r: Response)
      modifies this
      ensures (r, reader) == Extraction(env, old(reader), path, pagesStr, language, chunkSize, useGpu)
    {
      var images := env.pageCount(path);
      if images.Err? {
        return Failure(ProcessingFailed + images.message);
      }
      var totalPages := images.value;
      var selection := env.parsePageRange(pagesStr, totalPages);
      if selection.Err? {
        return Failure(ProcessingFailed + selection.message);
      }
      var pageNumbers := selection.value;
      if |pageNumbers| == 0 {
        return Failure(NoValidPages);
      }
      var languages := ParseLanguages(language);
      var ocrReader := GetOcrReader(languages, useGpu);
      if ocrReader.Err? {
        return Failure(ProcessingFailed + ocrReader.message);
      }
      var pagesContent := AssemblePages(env, ocrReader.value, path, language, totalPages, pageNumbers);
      if pagesContent.Err? {
        return Failure(ProcessingFailed + pagesContent.message);
      }
      var chunks := env.chunkPages(chunkSize, ChunkOverlap, pagesContent.value);
      if chunks.Err? {
        return Failure(ProcessingFailed + chunks.message);
      }
      var summary := env.chunksSummary(chunks.value);
      if summary.Err? {
        return Failure(ProcessingFailed + summary.message);
      }
      var result := OcrResult(path, totalPages, ProcessedPages(pageNumbers), language,
                              chunks.value, summary.value, TotalTextBlocks(pagesContent.value));
      r := Success(result);
    }

    /** `extract_text_ocr`: answer from the cache when the key is present,
        otherwise extract, store the response under the key and return it. */
    method ExtractTextOcr(filePath: string, pagesStr: Option<string>, language: string, chunkSize: int, useGpu: bool)
      returns (r: Response)
      modifies this, cache
      ensures (r, cache.entries, reader) ==
        Request(env, old(cache.entries), old(reader), filePath, pagesStr, language, chunkSize, useGpu)
    {
      if !env.pdf2ImageInstalled {
        return Failure(Pdf2ImageMissing);
      }
      var validated := env.validatePdfPath(filePath);
      if validated.Err? {
        return Failure(RequestFailed + validated.message);
      }
      var pdfPath := validated.value;
      var key := KeyOf(pdfPath, pagesStr, language, chunkSize, useGpu);
      var cachedResult := cache.Get(key);
      if cachedResult.Some? {
        return cachedResult.value;
      }
      r := PerformOcrExtraction(pdfPath, pagesStr, language, chunkSize, useGpu);
      cache.Set(key, r);
    }
  }
}
