# OCR extraction control logic of pdfreadermcp, in Dafny

This project models the control logic of the OCR tool `PDFOCR` of the
pdfreadermcp server. The tool takes a PDF path, a page selection, a
comma-separated list of OCR languages, a chunk size and a GPU flag. It
answers from its result cache when it can. Otherwise it rasterises the
document, runs the OCR engine on every selected page that exists, reduces
each page's detections to a page record and hands the records to the
chunker. The modelled parts are:

- the reduction of one page's OCR detections to text, block count and
  confidence scores (`OcrResults`, with Python's `strip`, `split` and
  `join` in `PyText`);
- the parsing of the language string;
- the rule for when the OCR reader is rebuilt and when it is reused;
- the page loop, `processed_pages` and `total_text_blocks`;
- the response of one extraction and the cache-first request flow
  (`PdfOcr`).

The rasteriser, the OCR engine, the path validator, the page-range
parser, the chunker and its summary are collaborators. They are given as
functions in the datatype `PdfOcr.Collaborators`. An `Err` or `Some`
error there stands for the exception the collaborator raises. The cache
is seen only through `get` and `set`.

Files: `wrappers.dfy` (Option and Result), `pytext.dfy` (Python string
primitives over code points, with Python's full `isspace` set),
`ocr_results.dfy` (`_process_ocr_results`) and `pdf_ocr.dfy` (the rest of
`PDFOCR`).

Each method with a loop or with state is proved against a pure function
of its inputs and the old state:
`AssemblePages` against `AssembledPages`, `PerformOcrExtraction` against
`Extraction`, and `ExtractTextOcr` against `Request`. The lemmas are stated
about those functions.

How the code handles failures and state:
- `_perform_ocr_extraction` catches every exception and returns an error
  response.
- That response is cached like a result, so a repeated request gets the
  cached failure (`RepeatedRequestIsServedFromCache`).
- The OCR reader is a field of the tool, created on demand and reused.

## Model

| member | source | states |
|---|---|---|
| `OcrResults.ProcessOcrResults` | src/pdfreadermcp/tools/pdf_ocr.py:221-259 | empty input gives `""` and no blocks; the text is the stripped texts of the contributing detections joined by one space; `block_count` is the number of contributing detections and never exceeds the input length; the scores are theirs, in order |
| `OcrResults.Kept` | src/pdfreadermcp/tools/pdf_ocr.py:238-246 | a detection is kept iff it has at least three fields and non-blank text; no more are kept than given |
| `OcrResults.BlocksAreTrimmed` | src/pdfreadermcp/tools/pdf_ocr.py:244-245 | one block per kept detection; every block is non-empty and already stripped |
| `OcrResults.TextSplitsIntoBlocks` | src/pdfreadermcp/tools/pdf_ocr.py:245-249 | splitting the page text on `' '` gives back the blocks iff there is a block and no block contains a space |
| `OcrResults.PageWordCount` | src/pdfreadermcp/tools/pdf_ocr.py:172 | the page's word count is the sum of the blocks' word counts and at least the block count |
| `OcrResults.PageCharCount` | src/pdfreadermcp/tools/pdf_ocr.py:171 | the page's character count is the blocks' total length plus one per gap |
| `PyText.Strip` | src/pdfreadermcp/tools/pdf_ocr.py:244 | `str.strip()`: empty iff the text is all whitespace, otherwise starts and ends with a non-whitespace character |
| `PyText.StripIsTrimmed` | src/pdfreadermcp/tools/pdf_ocr.py:244 | `str.strip()` is a piece of the text that begins after its leading whitespace and has only whitespace after it |
| `PyText.Split` | src/pdfreadermcp/tools/pdf_ocr.py:140 | `str.split(sep)`: one more field than there are separators |
| `PyText.SplitFieldsLackSep` | src/pdfreadermcp/tools/pdf_ocr.py:140 | no field of `str.split(sep)` contains the separator |
| `PyText.JoinSplit` | src/pdfreadermcp/tools/pdf_ocr.py:140 | joining the fields of `s.split(sep)` with `sep` gives `s` back |
| `PyText.SplitJoin` | src/pdfreadermcp/tools/pdf_ocr.py:249 | splitting `sep.join(parts)` recovers the parts iff no part contains the separator |
| `PyText.Join` | src/pdfreadermcp/tools/pdf_ocr.py:249 | `sep.join(parts)` is as long as the parts plus one separator per gap |
| `PyText.Words` | src/pdfreadermcp/tools/pdf_ocr.py:172 | `str.split()`: text that starts with a non-whitespace character has at least one word |
| `PyText.WordsAreTokens` | src/pdfreadermcp/tools/pdf_ocr.py:172 | every word of `str.split()` is non-empty and free of whitespace |
| `PyText.WordsOfSpaceJoin` | src/pdfreadermcp/tools/pdf_ocr.py:172 | the word count of a space-joined text is the sum of the parts' word counts |
| `PdfOcr.ParseLanguages` | src/pdfreadermcp/tools/pdf_ocr.py:140 | one entry per comma-separated field (commas + 1), in order, each the stripped field |
| `PdfOcr.ParsedLanguagesAreClean` | src/pdfreadermcp/tools/pdf_ocr.py:140 | no parsed language contains a comma or surrounding whitespace |
| `PdfOcr.ParseLanguagesOfJoin` | src/pdfreadermcp/tools/pdf_ocr.py:140 | a list of stripped, comma-free languages joined with `,` parses back to itself |
| `PdfOcr.PdfOcrTool.GetOcrReader` | src/pdfreadermcp/tools/pdf_ocr.py:39-66 | without easyocr it fails and changes nothing; the slot changes iff a reader is obtained and there was none or its languages differed; a new reader stores the requested languages; a construction error leaves the slot as it was |
| `PdfOcr.GpuFlagAloneKeepsReader` | src/pdfreadermcp/tools/pdf_ocr.py:53-62 | a change of the GPU flag alone reuses the existing reader with its old GPU setting |
| `PdfOcr.AssemblePages` | src/pdfreadermcp/tools/pdf_ocr.py:146-176 | the page loop computes `AssembledPages`: skipped out-of-range indices, one record per other index in order, the first engine error ends it |
| `PdfOcr.PagesFollowRequest` | src/pdfreadermcp/tools/pdf_ocr.py:148-176 | one record per in-range index in request order, each equal to the record built from the engine's detections on that page (text, confidences, `text_blocks`), numbered `index + 1`, `char_count` the text length, `word_count` the number of whitespace-separated words and at least `text_blocks`, language as requested |
| `PdfOcr.OcrPageIsRecordFor` | src/pdfreadermcp/tools/pdf_ocr.py:159-174 | the record built for one page has those numbering, count and language properties |
| `PdfOcr.AssemblyOkIffPagesOk` | src/pdfreadermcp/tools/pdf_ocr.py:148-162 | the page loop succeeds iff the engine succeeds on every in-range requested index |
| `PdfOcr.ProcessedPagesListSkipped` | src/pdfreadermcp/tools/pdf_ocr.py:187 | a successful result lists `index + 1` for every requested index in order, including indices past the last page |
| `PdfOcr.EmptySelectionFails` | src/pdfreadermcp/tools/pdf_ocr.py:136-137 | an empty page selection yields the error "No valid pages specified" and leaves the reader slot alone |
| `PdfOcr.PdfOcrTool.PerformOcrExtraction` | src/pdfreadermcp/tools/pdf_ocr.py:118-219 | response and reader slot are those of `Extraction`: every collaborator exception, the chunk summary's included, becomes a failure prefixed "OCR processing failed: " with the reader slot already updated once the reader exists; success carries `processed_pages` and `total_text_blocks` |
| `PdfOcr.PdfOcrTool.ExtractTextOcr` | src/pdfreadermcp/tools/pdf_ocr.py:68-116 | response, cache contents and reader slot are those of `Request`: missing pdf2image or an invalid path fail without touching cache or reader; a cached key is answered from the cache; otherwise the extraction runs and its response is stored |
| `PdfOcr.CacheHitReturnsStored` | src/pdfreadermcp/tools/pdf_ocr.py:103-105 | a cached key returns the stored response unchanged with no extraction and no state change |
| `PdfOcr.MissStoresResponse` | src/pdfreadermcp/tools/pdf_ocr.py:107-113 | on a miss the response is stored under the (path, `ocr_extract`, params) key and other entries are kept |
| `PdfOcr.RepeatedRequestIsServedFromCache` | src/pdfreadermcp/tools/pdf_ocr.py:97-116 | repeating a request returns the same response and changes nothing, failures of the extraction included |
| `PdfOcr.ResultCache.Get` | src/pdfreadermcp/tools/pdf_ocr.py:103 | returns the stored response iff the key is present |
| `PdfOcr.ResultCache.Set` | src/pdfreadermcp/tools/pdf_ocr.py:111 | stores the response under the key, replacing any previous one |
| `PdfOcr.PdfOcrTool.constructor` | src/pdfreadermcp/tools/pdf_ocr.py:33-37 | an empty cache configured with 30 entries and 3600 seconds, and no reader |

## Left out

- Confidence averaging and rounding (`avg_confidence`, `average_confidence` in `ocr_summary`): these are floating-point arithmetic. Each page record carries the list of scores that is averaged instead.
- JSON rendering (`_format_result`, `_error_response`): a response is the datatype `Response`. `Failure` stands for `success: False` with `extraction_method: 'easyocr'`.
- PdfOcr.ResultCache.Get: `PDFCache` is not part of this model. Its LRU eviction at 30 entries and expiry after 3600 seconds are not modelled, so a stored response is assumed to stay until it is overwritten. The truthiness test on a hit becomes presence, because a rendered response is never an empty string.
- PdfOcr.PdfOcrTool.GetOcrReader: the reader is a value (languages, GPU flag), not an engine object. A rebuild shows up as a change of the slot's value, and object identity is not modelled.
- `TextChunker`, `FileHandler.validate_pdf_path`, `FileHandler.parse_page_range`, `pdf2image.convert_from_path` and `easyocr.Reader.readtext` are not part of this model. They appear only as functions in `Collaborators`. Page images appear only as page indices, and chunk metadata and the chunk summary are opaque strings.
- Page indices from the page-range parser are natural numbers. Python's negative indexing of `images` is not modelled.
- `async`/`await`: the flow is modelled sequentially. Concurrent requests are out of scope.
- Exceptions raised by the cache itself are not modelled.
- Default arguments (chunk size 1000, languages `ch_sim,en`, GPU off) are not modelled: every parameter is passed explicitly.
- `server.py`, the package entry points and the test scripts: these are tool registration and manual scripts.
