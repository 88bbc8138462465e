# Referral text pipeline — a Dafny model

A clinic uploads a faxed or scanned referral: a PDF or an image. The
referral pipeline turns it into fields a person can review. It has three
stages:

1. **OCR extraction.** The extractor chooses a reader from the file's
   lower-cased extension.
   - A PDF is rasterised page by page with ImageMagick. Each page image is
     written at the path got by replacing the first `.pdf` in the upload's
     path, is read by Tesseract and is then deleted.
   - Each page's text is appended under a `=== PAGE n ===` marker.
   - An image goes straight to Tesseract.
   - Any other extension gets an "Unsupported file format" message.
2. **Field extraction.** The extractor reads eight fields: name, date of
   birth, phone, email, insurance, referring provider, reason and notes.
   - It sends a prompt to a remote language model and marks the model's
     JSON object with `ai_used: true`.
   - It falls back to eight regular expressions when:
     - it was made with `use_ai: false`,
     - no API key is configured,
     - the remote call fails, or
     - the reply is not a JSON object.
   - The fallback record has low confidence, a fixed note and
     `ai_used: false`.
3. **Display.** Two view helpers show each field either as its value or as
   an emphasised "Not found". Each gives that field a matching CSS class.

The model is split into modules:

- `RubyText` (`ruby_text.dfy`) holds the Ruby and ActiveSupport string
  operations the pipeline relies on: `strip`, `blank?`, ASCII `downcase`,
  `Integer#to_s`, `join`, `String#sub` with a literal pattern, and
  `humanize`.
- `Patterns` (`patterns.dfy`) holds the eight fallback expressions, each as a
  hand-written matcher with Ruby's `String#match` semantics:
  - the leftmost start position wins;
  - alternatives are tried in order;
  - repetitions are greedy and give back only what the rest needs.
- `PatternFacts` (`pattern_facts.dfy`) proves, without reference to
  backtracking, what each expression extracts.
- `JsonValues` (`json.dfy`) defines the values a parsed reply or a field
  hash can hold.
- `FieldExtraction` (`field_extraction.dfy`) models:
  - the field table and the fallback record,
  - the prompt,
  - `format_result`,
  - the AI path behind a `chat` function parameter,
  - the `AiFieldExtractor` object.
- `OcrExtraction` (`ocr_extraction.dfy`) models:
  - `File.extname`,
  - the dispatch,
  - a `Disk` object holding the set of existing paths,
  - the external programs as `Tools`,
  - the page loop as a method proved against the function `PdfUpTo`,
  - the unused text-layer reader,
  - the `OcrExtractor` object.
- `ApplicationHelper` (`application_helper.dfy`) models `display_field` and
  `field_status`.

These are parameters of the model rather than parts of it:

- the environment variable `OPENAI_API_KEY` (`apiKey`);
- the remote chat call, including `JSON.parse` of its content (`chat`);
- ImageMagick, Tesseract and `PDF::Reader` (`Tools`);
- the file system (`Disk`).

### Behaviour the model makes explicit

- **An upload named `*.PDF` is rasterised onto itself.**
  `File.extname(...).downcase` lets an upload named `scan.PDF` take the PDF
  route, but `sub(".pdf", ...)` then finds nothing to replace. So the raster
  path of every page is the upload's own path, and page 1 is read from that
  path. Two outcomes follow:
  - If Tesseract reads that file, it is deleted after page 1, and every
    later page finds no input. Only the first page's text is returned, and
    the upload is gone (`OcrExtraction.UpperCasePdfLosesUpload`).
  - If Tesseract raises on it, the result is "Error: " and the message, and
    the upload stays (`OcrExtraction.UpperCasePdfOcrFails`).
- **Temporary images are not always removed.** When Tesseract raises on a
  page, that page's image stays on disk (`OcrExtraction.PdfFiles`). Without
  such an error, no file is left behind.
- **`extract_text_from_pdf` is never called.** `extract` sends PDFs to the
  rasterising path. That path puts a marker before every page, even when
  there is only one. The unused text-layer reader puts markers only when
  there is more than one page.
- **The email field is not necessarily the first address-like word.** It is
  the address of the email expression that starts leftmost, made as long as
  the expression allows (`PatternFacts.EmailExtract`).
- **"Not found" does not always mean no match.** It is also what a labelled
  field reads when the document literally says `Name: Not found`. The
  sentinel means "no match" only through `Search(...).None?`.

## Model

| member | source | states |
|---|---|---|
| `RubyText.Strip` | app/services/ai_field_extractor_service.rb:159 | the stripped string is no longer than the input and neither begins nor ends with whitespace or NUL |
| `RubyText.StripSlice` | app/services/ai_field_extractor_service.rb:159 | stripping a slice equals stripping the same range in place, so the field value is a substring of the document |
| `RubyText.StripSkipsSpaces` | app/services/ai_field_extractor_service.rb:159 | leading `\s` characters before a range do not change what `strip` returns |
| `RubyText.StripAllSpace` | app/services/ai_field_extractor_service.rb:159 | a range made only of strip characters strips to the empty string |
| `RubyText.Downcase` | app/services/ocr_extractor_service.rb:8 | `downcase` keeps the length and lower-cases each character, ASCII letters only |
| `RubyText.NatToString` | app/services/ocr_extractor_service.rb:58 | the page number is written as a non-empty string of decimal digits |
| `RubyText.NatToStringValue` | app/services/ocr_extractor_service.rb:58 | the digits written for n denote n in decimal, with no leading zero |
| `RubyText.NatToStringInjective` | app/services/ocr_extractor_service.rb:83 | different page numbers are written as different strings |
| `RubyText.ConcatPiece` | app/services/ocr_extractor_service.rb:58 | in the accumulated text, each appended piece sits right after the pieces before it |
| `RubyText.SplitJoinLines` | app/services/ai_field_extractor_service.rb:124 | joining newline-free lines with "\n" loses nothing: splitting at newlines gives back exactly those lines |
| `RubyText.FindFirst` | app/services/ocr_extractor_service.rb:83 | finds the leftmost occurrence of a literal, or reports that there is none |
| `RubyText.ReplaceFirst` | app/services/ocr_extractor_service.rb:83 | `sub` with a literal replaces only the first occurrence, and returns the string unchanged when there is none |
| `RubyText.Humanize` | app/services/ai_field_extractor_service.rb:124 | `humanize` keeps the length and turns underscores into spaces; it upper-cases a first letter and lower-cases every later letter; it keeps every other character and adds or removes no newline |
| `Patterns.Span` | app/services/ai_field_extractor_service.rb:143-150 | a greedy character-class repetition takes every class character up to the first one outside the class |
| `Patterns.NumberThenSep` | app/services/ai_field_extractor_service.rb:144 | `\d{1,2}[-\/]` reads one or two digits and a separator, or fails |
| `Patterns.LastTldDot` | app/services/ai_field_extractor_service.rb:146 | the greedy domain gives back characters until the last place where `\.[a-zA-Z]{2,}` can start |
| `Patterns.MatchAlternatives` | app/services/ai_field_extractor_service.rb:143-150 | a label alternation matches with the first alternative whose whole continuation succeeds, and fails only when none does |
| `Patterns.ExtractPattern` | app/services/ai_field_extractor_service.rb:157-160 | no match gives "Not found"; a match gives a value no longer than its capture, with no whitespace or NUL at either end |
| `Patterns.Search` | app/services/ai_field_extractor_service.rb:158 | `String#match` returns the match at the leftmost position where the expression matches, and none when it matches nowhere |
| `PatternFacts.ExtractAt` | app/services/ai_field_extractor_service.rb:157-160 | when the expression matches, the field is the first capture group of that match with `strip` applied |
| `PatternFacts.RunCaptureMeaning` | app/services/ai_field_extractor_service.rb:143 | `\s*([cls]+)` succeeds exactly when a class character follows the colon |
| `PatternFacts.RunCaptureValue` | app/services/ai_field_extractor_service.rb:143-159 | when `\s*([cls]+)` succeeds, its capture, stripped, equals the whole run of class characters that starts right after the colon, stripped (the spaces the greedy `\s*` skipped are in the class) |
| `PatternFacts.RunAlternatives` | app/services/ai_field_extractor_service.rb:143-150 | at a position, a labelled run expression matches with the first label followed by a colon and a class character |
| `PatternFacts.LabelledRunExtract` | app/services/ai_field_extractor_service.rb:143-160 | the name, phone, insurance, provider, reason and notes expressions match exactly when some label, colon and class character occur |
| `PatternFacts.LabelledRunFound` | app/services/ai_field_extractor_service.rb:143-160 | when one of those expressions matches, the match is at the leftmost label followed by its colon and a class character, with the first listed label that fits there, and the field is the stripped run after the colon |
| `PatternFacts.DateAtMeaning` | app/services/ai_field_extractor_service.rb:144 | the date capture finds a date exactly when a date shape starts there, and the longest such shape |
| `PatternFacts.DateAlternatives` | app/services/ai_field_extractor_service.rb:144 | at a position, the date expression matches with the first label followed by a colon, whitespace and a date shape |
| `PatternFacts.DateStripsToItself` | app/services/ai_field_extractor_service.rb:159 | a date shape is unchanged by `strip` and is never the sentinel |
| `PatternFacts.LabelledDateExtract` | app/services/ai_field_extractor_service.rb:144-160 | the date of birth is found exactly when some label, colon, whitespace and date shape occur; it is the leftmost such date, and the longest starting there |
| `PatternFacts.DateOfBirthExtract` | app/services/ai_field_extractor_service.rb:144 | the date-of-birth field is "Not found" exactly when no labelled date occurs, and is a date shape otherwise |
| `PatternFacts.EmailAtMeaning` | app/services/ai_field_extractor_service.rb:146 | the email expression at a position matches an address exactly when one starts there, and the longest one |
| `PatternFacts.EmailShapeOneAt` | app/services/ai_field_extractor_service.rb:146 | an extracted address holds exactly one '@', and neither begins nor ends with it |
| `PatternFacts.EmailExtract` | app/services/ai_field_extractor_service.rb:146-160 | the email field is "Not found" exactly when no address occurs; otherwise it is the leftmost address, taken as long as the expression allows |
| `FieldExtraction.RecordKeysDistinct` | app/services/ai_field_extractor_service.rb:142-154 | the eleven keys of the fallback hash literal are pairwise distinct |
| `FieldExtraction.HashOf` | app/services/ai_field_extractor_service.rb:142-154 | a hash literal has exactly the keys of its pairs |
| `FieldExtraction.HashOfLookup` | app/services/ai_field_extractor_service.rb:142-154 | when the keys are distinct, each pair's value is found under its key |
| `FieldExtraction.FieldValues` | app/services/ai_field_extractor_service.rb:143-150 | the fallback value of each field is its expression's extraction, in declaration order |
| `FieldExtraction.FallbackLookup` | app/services/ai_field_extractor_service.rb:142-154 | the fallback literal holds each field's value, "low" confidence, the fixed note and `ai_used: false` |
| `FieldExtraction.PatternRecord` | app/services/ai_field_extractor_service.rb:140-155 | the fallback record has exactly the eight field keys plus confidence, extraction_notes and ai_used; each field holds its expression's extraction; confidence is "low" and ai_used is false |
| `FieldExtraction.PatternRecordShapes` | app/services/ai_field_extractor_service.rb:144-146 | in the fallback record, the date of birth is a date shape and the email is an address, unless they are "Not found" |
| `FieldExtraction.FormatResult` | app/services/ai_field_extractor_service.rb:162-164 | a parsed object keeps all its keys and values, with `ai_used` set to true; any other parsed value cannot be formatted |
| `FieldExtraction.ExtractWithAi` | app/services/ai_field_extractor_service.rb:34-59 | the result is marked `ai_used: true` exactly when the reply to the built prompt parses to an object, and is then that object formatted by `format_result`; every failure gives the fallback record |
| `FieldExtraction.AiFieldExtractor.constructor` | app/services/ai_field_extractor_service.rb:15-18 | the remote model is used only when it was asked for and the API key is present and not blank |
| `FieldExtraction.KeyConfigured` | app/services/ai_field_extractor_service.rb:30-32 | the remote model is configured exactly when a key is set and holds at least one character that is not a space |
| `FieldExtraction.AiFieldExtractor.ExtractFields` | app/services/ai_field_extractor_service.rb:20-26 | without the remote model the result is the fallback record; with it, the AI path; `ai_used` is true exactly when the model answered with an object |
| `FieldExtraction.FieldLines` | app/services/ai_field_extractor_service.rb:124 | one prompt line per field, in declaration order, each being "- ", the humanized key, ": " and the description |
| `FieldExtraction.RenderEmbedsText` | app/services/ai_field_extractor_service.rb:120-138 | in the prompt, the field block follows the heading, and the document text appears verbatim between the opening and closing fences |
| `FieldExtraction.BuildPromptLayout` | app/services/ai_field_extractor_service.rb:120-138 | the prompt sent has the field block right after its heading, and that block splits at newlines into one line per field of the table; the document text sits verbatim between the fences |
| `FieldExtraction.FieldTableOneLine` | app/services/ai_field_extractor_service.rb:4-13 | no key or description of `FIELDS_TO_EXTRACT` holds a newline |
| `FieldExtraction.FieldBlockLines` | app/services/ai_field_extractor_service.rb:124 | when keys and descriptions hold no newline, splitting the field block at newlines gives back exactly one line per field, in order |
| `FieldExtraction.FieldLineOneLine` | app/services/ai_field_extractor_service.rb:124 | a field line built from a newline-free key and description holds no newline |
| `OcrExtraction.ExtName` | app/services/ocr_extractor_service.rb:8 | `File.extname` is empty, or starts with its only dot and holds no slash |
| `OcrExtraction.ExtNameOfSuffix` | app/services/ocr_extractor_service.rb:8 | a name whose stem does not end in a slash or a dot has the text from its last dot on as its extension |
| `OcrExtraction.FileExtensionOfSuffix` | app/services/ocr_extractor_service.rb:8 | the stored extension is the dot followed by the name's suffix, lower-cased |
| `OcrExtraction.FileExtension` | app/services/ocr_extractor_service.rb:8 | the stored extension is empty or a dot followed by a suffix with no slash and no further dot, as long as `File.extname`'s, and holds no ASCII capital |
| `OcrExtraction.RouteOf` | app/services/ocr_extractor_service.rb:12-19 | ".pdf" and only ".pdf" goes to the PDF reader, exactly the five image extensions go to the image reader, and any extension that is routed is a dot and three or four lower-case letters |
| `OcrExtraction.RouteIgnoresCase` | app/services/ocr_extractor_service.rb:8-16 | an upload is routed as its lower-cased suffix is, whatever the case of its letters: ".pdf" to the PDF route and each of the five image extensions to the image route |
| `OcrExtraction.NoDotUnsupported` | app/services/ocr_extractor_service.rb:8-19 | a name without a dot has an empty extension and is not supported |
| `OcrExtraction.Disk.Create` | app/services/ocr_extractor_service.rb:90 | a successful `convert` adds exactly its output file |
| `OcrExtraction.Disk.Delete` | app/services/ocr_extractor_service.rb:59 | `File.delete` removes exactly that file |
| `OcrExtraction.RasterPathShape` | app/services/ocr_extractor_service.rb:83 | when the path names ".pdf", the raster path is longer by the page suffix; when it does not, the raster path is the upload's own path |
| `OcrExtraction.RasterPathDiffers` | app/services/ocr_extractor_service.rb:83 | when the path names ".pdf", no page image is written over the upload |
| `OcrExtraction.ConvertPdfPageToImage` | app/services/ocr_extractor_service.rb:81-101 | the output file exists afterwards exactly when the upload exists and renders, or the file was already there; the page's raster path is returned exactly when it exists |
| `OcrExtraction.FailedStays` | app/services/ocr_extractor_service.rb:62-65 | once a page's OCR has raised, later pages change nothing |
| `OcrExtraction.FilesKeptStep` | app/services/ocr_extractor_service.rb:51-61 | one turn of the page loop keeps the files invariant |
| `OcrExtraction.PdfFiles` | app/services/ocr_extractor_service.rb:51-65 | while the loop runs, no new file remains; after an OCR error, only that page's image remains; no file is removed unless it is the raster path of a page already seen |
| `OcrExtraction.ReadStep` | app/services/ocr_extractor_service.rb:54-60 | a page that renders and reads appends its marker and text, and its image is deleted again |
| `OcrExtraction.UploadNotRaster` | app/services/ocr_extractor_service.rb:83 | when the path names ".pdf", the upload is not among the page images |
| `OcrExtraction.OcrPages` | app/services/ocr_extractor_service.rb:58 | page k contributes its marker "=== PAGE k+1 ===" followed by its OCR text |
| `OcrExtraction.AllPagesRead` | app/services/ocr_extractor_service.rb:51-61 | when every page renders and reads, the text is each page's marker and text in page order, and exactly the page images are gone |
| `OcrExtraction.UpperCasePdfLosesUpload` | app/services/ocr_extractor_service.rb:54-60 | when Tesseract reads the rewritten upload, an upload whose name lacks ".pdf" gives only the first page's text and the upload itself is deleted |
| `OcrExtraction.UpperCasePdfOcrFails` | app/services/ocr_extractor_service.rb:54-65 | for an upload whose name lacks ".pdf", when OCR of the rewritten upload raises, the loop stops at page 1 with that error and the disk is as it was |
| `OcrExtraction.SkipOrReadStep` | app/services/ocr_extractor_service.rb:51-61 | with no stale image, a page that does not render is skipped, and one that renders adds its marker and text and leaves the disk as it was |
| `OcrExtraction.SomePagesRendered` | app/services/ocr_extractor_service.rb:51-61 | with no stale image and no OCR error, the text is the marker and text of each page that renders, in page order, pages that do not render are skipped, and the disk ends as it began |
| `OcrExtraction.ExtractFromPdf` | app/services/ocr_extractor_service.rb:39-71 | the returned text and the files left on disk are those of the page-by-page specification, with "Error: " and the message when counting or reading a page raises |
| `OcrExtraction.TextPieces` | app/services/ocr_extractor_service.rb:28-31 | with several pages, every page is preceded by its marker; with one page or none, the pages are taken as they are |
| `OcrExtraction.ExtractTextFromPdf` | app/services/ocr_extractor_service.rb:24-37 | the result is the concatenated text layer, and "" when the reader raises |
| `OcrExtraction.TextLayerPages` | app/services/ocr_extractor_service.rb:28-31 | a one-page text layer is the page's text unmarked; with more pages, each page's text follows its own marker |
| `OcrExtraction.OcrExtractor.constructor` | app/services/ocr_extractor_service.rb:6-9 | the stored extension is `File.extname` of the path, lower-cased |
| `OcrExtraction.ExtractFromImage` | app/services/ocr_extractor_service.rb:73-79 | the image's OCR text when Tesseract reads it; otherwise "Error: " followed by the exception's message |
| `OcrExtraction.OcrExtractor.Extract` | app/services/ocr_extractor_service.rb:11-20 | a PDF goes through the page loop, an image straight to OCR with the disk unchanged, and anything else gets "Unsupported file format: " and the extension |
| `ApplicationHelper.DisplayField` | app/helpers/application_helper.rb:2-8 | a blank value or "Not found" is shown as `<em class="not-found">Not found</em>`; any other value is shown unchanged |
| `ApplicationHelper.FieldStatus` | app/helpers/application_helper.rb:10-16 | "field-found" exactly when the value is neither blank nor "Not found", "field-empty" otherwise |
| `ApplicationHelper.DisplayMatchesStatus` | app/helpers/application_helper.rb:2-16 | a value is printed exactly when its field is marked found |
| `ApplicationHelper.StrippedValueStatus` | app/helpers/application_helper.rb:11 | an extracted value is marked empty only if it is the sentinel, empty, or starts with a non-ASCII space that `strip` keeps but `blank?` counts |

## Left out

- The system prompt (`system_prompt`) and the request parameters (model name, temperature, response format) are not modelled. The remote call is the `chat` function parameter. It receives only the user prompt, and its reply is either a failure or a parsed JSON value.
- The API key comes from the environment and is a parameter of the model.
- `FieldExtraction.AiFieldExtractor.constructor`: takes `useAi` explicitly. The keyword default `use_ai: true` (line 15) is not modelled; a caller that omits it corresponds to passing true.
- The OpenAI client is not modelled, and neither is `Rails.logger`. The same goes for the log lines about page progress and errors.
- `symbolize_keys` is not modelled. Keys are modelled as their names, so string keys and symbol keys with the same name are the same key.
- JSON numbers are modelled as integers. Floating-point values are not modelled.
- `FieldExtraction.BuildPromptLayout`: states where the field block and the document text sit in the prompt, not the fixed wording of lines 122-136. The prompt's fixed text is a template with three parts.
- `RubyText.Humanize`: covers underscored keys that do not start with an underscore, which are the only keys the table has. It does not model the removal of an `_id` suffix, inflection acronyms, or the `lstrip` that removes leading underscores turned into spaces.
- `RubyText.Downcase`: case folding is ASCII-only. The `/i` expressions are also treated as ASCII-only. Ruby's Unicode case folding is not modelled, so, for example, the Kelvin sign is not treated as matching `k`.
- `OcrExtraction.SomePagesRendered`: assumes no page image is on disk before the loop. A stale image at a page's raster path would be read in place of a page that fails to render. The step function `PdfUpTo`, and so `OcrExtraction.ExtractFromPdf`, covers that case too.
- The OCR text of an image is a function of its path only. The model does not follow when a file's bytes change, such as a PNG written over the upload.
- `MiniMagick::Image.open` is modelled as a page count that is independent of the disk. The temporary copy it makes is not modelled.
- The `-density 300` argument to `convert` is not modelled. Neither is `system`'s return value, which the source ignores too.
- `File.exist?`, `File.delete` and `system` are modelled as operations that do not raise. The outer rescue of `extract_from_pdf` (lines 68-70) and the rescue in `convert_pdf_page_to_image` (lines 98-100) are therefore unreachable in the model.
- The controller, the views and the persistence of referrals are not part of this model.
