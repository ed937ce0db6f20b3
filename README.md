# Markit document conversion core, modelled in Dafny

Markit is a Gradio web application. A user uploads a document, picks a
parser backend (the parser) and an OCR method, and picks an output format:
Markdown, JSON, Text or Document Tags. The application then converts the
document and shows the result page by page, with a download file. This
project models the sequential core of that application and proves
properties about it:

- **Conversion pipeline** (`convert_file`, module `Converter`). It copies the
  upload into a temporary file that keeps the upload's suffix. It calls the
  parser factory on that copy. It writes the answer into a second temporary
  file whose extension follows the output format. Finally it deletes the
  copy, and only does so on the success path.
  - The file system is a `Disk` object. Its `files` field is a map from path
    to bytes, and the named-temporary-file, read, write and unlink calls are
    modelled as methods that change it in place (module `FileSystem`).
  - Each operating-system call that may fail takes its failure as a
    parameter (`Faults`).
  - `ConvertFile`'s contract says, for every way the procedure can end, what
    it returns and exactly what is on the disk afterwards.
- **Parser factory** (`ParserFactory`). It resolves a parser by name, resolves
  the OCR display name to the parser's internal id, and dispatches to the
  backend. Exceptions become a `Result`.
  - The registry is modelled from outside: an insertion-ordered map from
    name to class (`Registry`). Each class carries its ordered table of OCR
    methods (`ParserInterface`).
  - The backend's `parse` is a function parameter.
- **Pages** (`Ui`). This covers `split_content_into_pages`,
  `update_page_content`, `handle_page_navigation` and the page bookkeeping
  of `handle_convert`.
  - `src/main.py` repeats these functions line for line: `handle_convert` at
    18-23, `split_content_into_pages` at 35-63, `update_page_content` at
    66-69, and a nested `handle_page_navigation` at 150-157. One model serves
    both files, and the table below cites both.
  - The paginator is a `for` loop proved against a greedy-packing
    specification.
  - `format_markdown_content` is a function parameter. Page properties are
    stated on the text before formatting.
- **Backends.** Two backends are modelled:
  - Docling (`DoclingParser`): its OCR table, the pipeline options `parse`
    assigns field by field on a `PdfPipelineOptions` object, the forced
    full-page OCR path, and the export choice.
  - Gemini Flash (`GeminiFlashParser`): its OCR table, the extension-to-MIME
    table, the inline-or-upload size threshold, the post-processing for each
    format, and `parse` with the environment and the model as parameters.
- **Format routing** (`FormatRouting`). `convert_file` forwards
  `output_format.lower()`, so the label "Document Tags" reaches the backends
  as "document tags", with a space. That matches neither backend's
  `"document_tags"` branch, so both backends return markdown, or the model's
  text unchanged. The download file is still named `.doctags`. The model
  states this behaviour as the code has it, and `FormatRouting` proves it end
  to end.

Shared helpers live in `Text` (ASCII `str.lower`, `str.split`/`str.join`,
character removal, decimal rendering, UTF-8 length bounds), `Paths` (the
`.name` and `.suffix` of `pathlib`) and `Wrappers` (`Option`, `Result`).

Two facts about `convert_file` that the model states as the code has them:
- It deletes the staged copy only on its success path:
  - a failed read or write while staging leaves the staged file behind,
    empty or holding the part of the upload written before the failure
    (`src/converter.py:33-39`);
  - a factory error, or a failure to create the download, leaves the staged
    copy (`src/converter.py:52-53` and `80-81`);
  - a failed write of the download leaves the download file, with whatever
    part of the text reached it, and the staged copy behind.
- It has no cancellation checkpoint.

## Model

| member | source | states |
|---|---|---|
| FileSystem.Disk.CreateTemp | src/converter.py:33 | a named temporary file is created empty under a name no existing file has, made of the temp prefix, name characters and the requested suffix; nothing else on disk changes; a failure changes nothing |
| FileSystem.Disk.Read | src/converter.py:35-36 | reading a missing file fails with the `[Errno 2] No such file or directory: ` message followed by the path as `repr` shows it; otherwise it returns the file's bytes or the injected failure |
| Text.ReprRoundTrip | src/converter.py:35-39 | what `repr` writes between its quotes, with the escapes undone, is the path again, so the message names the path unambiguously whichever quote is chosen |
| Text.ReprPlain | src/converter.py:35-39 | a path without backslashes or control characters is shown as it is, between single quotes, or between double quotes when it holds a single quote and no double quote |
| FileSystem.Disk.Write | src/converter.py:36 | a successful write leaves the file holding exactly the data; a failed one leaves it holding the prefix of the data written before the failure, and changes no other file |
| FileSystem.Disk.Unlink | src/converter.py:75 | unlink removes exactly that file; a missing file or a failure leaves the disk as it was |
| Paths.TempNameSuffix | src/converter.py:32-33 | a temporary file created with a well-formed suffix has that suffix again as its `pathlib` suffix |
| Paths.SuffixShape | src/converter.py:32 | every `pathlib` suffix is empty or a dot followed by non-dot, non-slash characters |
| Converter.OutputExtensionTable | src/converter.py:56-65 | Markdown→.md, JSON→.json, Text→.txt, Document Tags→.doctags, any other label→.txt; all of them are suffixes |
| Converter.BackendKwargs | src/converter.py:44-49 | the factory receives `output_format` lower-cased and no other keyword |
| Converter.StageInput | src/converter.py:31-39 | staging creates a fresh temp file with the upload's suffix and copies the upload's bytes into it; a creation failure touches nothing; a missing upload or a failed read leaves the empty temp file, a failed write the temp file holding the part written; the staged file's `pathlib` suffix is the upload's |
| Converter.WriteDownload | src/converter.py:67-71 | the download is a fresh temp file with the format's extension holding the content's UTF-8 bytes; a failed write leaves it holding the part written |
| Converter.ConvertFile | src/converter.py:14-81 | its `Outcome`: no upload gives "Please upload a file." and no disk change; staging errors give "Error creating temporary file: …" and the factory's answer is never used; the factory sees the staged path, whose bytes equal the upload's, with the lower-cased format; factory and output errors give "Error: …" with the staged copy kept and a partly written download left behind; success returns the factory's content and a download holding it, and deletes the staged copy; a failed delete does not change the answer; the staged copy is gone exactly when the call succeeded and deleting it did not fail |
| ParserInterface.LookupOcrId | src/parser_factory.py:52 | the reverse lookup finds nothing exactly when no entry has that display name; otherwise the id belongs to an entry with that display name |
| ParserInterface.LookupOcrIdUnique | src/parser_factory.py:51-52 | with distinct display names, each display name resolves to the id listed beside it, whatever tie-break the registry uses |
| Registry.Registry.ParserClassOf | src/parser_factory.py:22 | the class lookup returns nothing exactly for an unregistered name |
| Registry.Registry.ParserNames | src/ui.py:105-106 | the parser names listed are exactly the registered ones |
| Registry.Registry.OcrOptions | src/main.py:13-15 | the OCR options of a parser are its table's display names in order, empty for an unknown parser |
| Registry.Registry.OcrMethodId | src/parser_factory.py:52 | the id lookup is empty for an unknown parser and is the table's reverse lookup otherwise |
| Registry.OcrOptionsResolve | src/main.py:13-15 | every OCR option offered for a parser resolves back to its own entry's id |
| ParserFactory.CreateParser | src/parser_factory.py:22-27 | `create_parser` returns nothing exactly when no class is registered, and otherwise the registered class |
| ParserFactory.Propagate | src/parser_factory.py:57 | the backend's content is returned unmodified and its exception uncaught |
| ParserFactory.ParseDocument | src/parser_factory.py:47-49 | an unknown parser is rejected with "Unknown parser: <name>" |
| ParserFactory.UnknownOcrMethodExactly | src/parser_factory.py:52-54 | for a known parser, "Unknown OCR method: <m> for parser <p>" is raised exactly when the display name has no entry or has an empty id |
| ParserFactory.RejectionsIgnoreBackend | src/parser_factory.py:47-54 | a rejection does not depend on the backend, the files, the path or the keywords, so the backend is not consulted; an unknown parser is reported before any OCR lookup |
| ParserFactory.BackendCalledWithResolvedId | src/parser_factory.py:52-57 | whenever the backend is reached, it gets the registered class, the staged path, the keywords unchanged and the non-empty id of the entry whose display name was asked for, never the display name |
| Text.JoinSplit | src/ui.py:22 | joining the pieces of `split(sep)` with `sep` gives back the string |
| Ui.SplitContentIntoPages | src/ui.py:17-45 | empty content gives exactly ["No content to display"]; otherwise the pages are the formatted pages of the greedy packing of the double-newline sections, at least one page, and re-joining the unformatted pages gives back the content |
| Ui.PaginationRoundTrip | src/main.py:35-63 | re-joining the unformatted pages with "\n\n" reproduces the input, so sections are never dropped, cut or reordered |
| Ui.OverBudgetPageIsOneSection | src/ui.py:28-38 | a page whose running length exceeds `chars_per_page` holds a single section |
| Ui.GreedyPackingUnique | src/ui.py:27-43 | the packing conditions have one solution: a page ends only because its successor's first section would overflow it |
| Ui.EmptyPacking | src/ui.py:40-43 | the packing has pages exactly when there are sections, so no page is ever empty |
| Ui.UpdatePageContent | src/ui.py:48-51 | with no pages or a number outside 1..len, returns ("Invalid page", n, "Page 0/0"); otherwise (pages[n-1], n, "Page n/len") |
| Ui.UpdatePageContentFlagsInvalid | src/main.py:66-69 | the label is "Page 0/0" if and only if the page is invalid |
| Ui.PageInfoInjective | src/ui.py:51 | two page labels are equal only for the same page number and page count |
| Ui.HandlePageNavigation | src/ui.py:62-69 | with pages present the result is always a valid page, shown with its text and label, and equals current+direction whenever that is valid; with no pages it is the invalid view, at page 1 when current+direction is below 1 and at page 0 otherwise |
| Ui.NavigationNearest | src/main.py:150-157 | the clamped page is the valid page nearest to current+direction |
| Ui.NavigationBackForth | src/ui.py:62-69 | one step back then one step forward from any page but the first returns to the same view |
| Ui.FirstView | src/ui.py:56-59 | the first view paginates with 6000 characters per page and shows exactly what `update_page_content(pages, 1)` shows, including "Page 1/<len>" |
| Ui.HandleConvert | src/main.py:18-23 | the text and the disk are exactly what `convert_file` leaves on every path (ConvertFile's `Outcome`); the pages paginate that text and the first page is shown |
| DoclingParser.OcrTableIds | src/parsers/docling_parser.py:28-64 | no two OCR entries share an id |
| DoclingParser.OcrTableNames | src/parsers/docling_parser.py:28-64 | no two OCR entries share a display name |
| DoclingParser.OcrTable | src/parsers/docling_parser.py:27-64 | seven entries, "No OCR"/no_ocr first, and every display name resolves to its own id |
| DoclingParser.RegisteredOcrOptions | src/main.py:13-15 | with the Docling class registered, the interface offers its seven display names in table order |
| DoclingParser.RegisteredDispatch | src/parser_factory.py:47-57 | choosing the k-th offered Docling option makes the factory call the backend with the k-th id of the table |
| ParserFactory.OfferedOptionDispatch | src/parser_factory.py:47-57 | for a parser with distinct display names and non-empty ids, the k-th offered option reaches the backend with the k-th id, the registered class, the path and the keywords unchanged |
| DoclingParser.PdfPipelineOptions.constructor | src/parsers/docling_parser.py:73 | a new options object holds the library's defaults, with EasyOCR options |
| DoclingParser.PipelineOcrSwitch | src/parsers/docling_parser.py:74-98 | no_ocr turns OCR off; easyocr, easyocr_cpu, tesseract, tesseract_cli and ocrmac turn it on; table structure and cell matching are on for every id and on the forced path |
| DoclingParser.PipelineEasyOcr | src/parsers/docling_parser.py:80-89 | both EasyOCR ids take the languages keyword, defaulting to ["en"]; only easyocr_cpu turns the GPU off; only easyocr sets 4 threads on the automatic device |
| DoclingParser.PipelineUnknownId | src/parsers/docling_parser.py:77-98 | an id outside the branches leaves OCR, the OCR options and the accelerator as the library made them |
| DoclingParser.ExportChoice | src/parsers/docling_parser.py:114-122 | json→dict, text→text and document_tags→tokens each exactly when the lower-cased format equals that word; anything else exports markdown |
| DoclingParser.ExportChoiceIgnoresCase | src/parsers/docling_parser.py:114-115 | the export choice ignores case; with no format it is markdown |
| DoclingParser.ApplyFullForceOcr | src/parsers/docling_parser.py:124-145 | the forced path converts with OCR, tables and cells on and Tesseract CLI forcing whole-page OCR, and exports markdown |
| DoclingParser.Parse | src/parsers/docling_parser.py:66-122 | full_force_ocr takes the forced path whatever format was asked; every other id converts with the options built for it and exports as the format chooses |
| GeminiFlashParser.OcrTable | src/parsers/gemini_flash_parser.py:26-37 | there is one entry: "None" resolves to "none", and every other display name resolves to nothing |
| GeminiFlashParser.RegisteredOcrOptions | src/parsers/gemini_flash_parser.py:30-37 | with the Gemini class registered, the interface offers only "None", the factory passes it to the backend as "none", and it rejects every other display name |
| GeminiFlashParser.MimeType | src/parsers/gemini_flash_parser.py:130-168 | an extension in the table gets its entry; any other gets application/pdf |
| GeminiFlashParser.MimeTableAliases | src/parsers/gemini_flash_parser.py:135-144 | .htm/.html are text/html and .jpg/.jpeg are image/jpeg |
| GeminiFlashParser.MimeTableFallback | src/parsers/gemini_flash_parser.py:149-168 | .tif/.tiff are image/tiff, .yml/.yaml are application/x-yaml, and unknown extensions are application/pdf |
| GeminiFlashParser.MimeTableKeysLowerCase | src/parsers/gemini_flash_parser.py:132-166 | every key of the table is lower case, so looking up the lower-cased suffix loses no entry |
| GeminiFlashParser.MimeTypeIgnoresCase | src/parsers/gemini_flash_parser.py:64-70 | two paths that differ only in letter case get the same MIME type |
| Paths.LowerSuffix | src/parsers/gemini_flash_parser.py:64 | the suffix of the lower-cased path is the lower-cased suffix, because lower-casing moves no dot and no slash |
| GeminiFlashParser.MimeTypeUpperCase | src/parsers/gemini_flash_parser.py:64-70 | two instances of MimeTypeIgnoresCase: .JPG is image/jpeg and .PDF is application/pdf |
| GeminiFlashParser.TransportFor | src/parsers/gemini_flash_parser.py:85 | inline exactly when the file is smaller than 20 971 520 bytes; upload otherwise |
| GeminiFlashParser.StripMarksSpec | src/parsers/gemini_flash_parser.py:119-121 | the text output drops every '#', '*' and '_' and keeps every other character, in order and as often as it occurs |
| GeminiFlashParser.PostProcess | src/parsers/gemini_flash_parser.py:113-125 | an unrecognised format returns the model's text unchanged |
| GeminiFlashParser.PostProcessFormats | src/parsers/gemini_flash_parser.py:114-125 | json gives the dumped object, text drops the marks, document_tags wraps the content in `<doc>` lines; matching ignores case; no format returns the text unchanged |
| GeminiFlashParser.Parse | src/parsers/gemini_flash_parser.py:43-67 | the missing client, a missing or empty GOOGLE_API_KEY, and a missing file are reported, in that order, with their own messages |
| GeminiFlashParser.ParseCallsModel | src/parsers/gemini_flash_parser.py:83-128 | the model gets the file's bytes, the transport for its size and the MIME type of its lower-cased suffix; its failure is wrapped as "Error processing document with Gemini Flash: …"; its text is post-processed for the format |
| GeminiFlashParser.RejectionsIgnoreModel | src/parsers/gemini_flash_parser.py:45-67 | the rejections before the model call do not depend on the model |
| GeminiFlashParser.AsBackend | src/parsers/gemini_flash_parser.py:43 | as a backend, the parser ignores the OCR id and the class and runs `parse` on the given files |
| FormatRouting.LowerLabels | src/converter.py:48 | the labels lower-case to "json", "text", "markdown" and "document tags", and the last is not "document_tags" |
| FormatRouting.LabelsInBackends | src/converter.py:44-65 | JSON and Text reach their branches in both backends; Markdown and Document Tags both reach the markdown / unchanged branch; Document Tags' download is still named .doctags |
| FormatRouting.NoLabelReachesDocumentTags | src/parsers/docling_parser.py:119-120 | no label of the interface reaches Docling's token export |
| FormatRouting.GeminiDocumentTagsIsMarkdown | src/parsers/gemini_flash_parser.py:122-125 | through the factory, asking Gemini for Document Tags returns exactly what asking for Markdown returns |

## Left out

- Threads, the cancellation event and its monitor, and all Gradio wiring (`src/ui/ui.py`, and the `Blocks`/event code of `src/ui.py` and `src/main.py`) are not modelled. They are concurrency and presentation, not sequential logic.
- `format_markdown_content` and the `markdown` library: a function parameter `format` of the paginator.
- The Docling engine (conversion, OCR, the exporters), the `genai` client and `json.dumps`: function parameters (`DoclingParser.Engine`, `GeminiFlashParser.Model`, `dumps`). Their own failures are the `Failure` they return.
- The values inside a fresh `PdfPipelineOptions()` belong to Docling, so they are a parameter (`LibraryDefaults`). `TesseractCliOcrOptions()` is taken as not forcing full-page OCR, which is the library default.
- `ParserRegistry` (`parser_registry.py`) is not part of this model. Only the lookups the factory and the interface call are modelled. How `register` fills it, and what it does with a name registered twice, are left open. The reverse OCR lookup is modelled as the first match, and `LookupOcrIdUnique` shows that the choice does not matter when display names are distinct, as they are in both backend tables.
- The default parser is `parser_names[0]`, so the import order in `src/parsers/__init__.py` decides it. That order is import-time behaviour and is not modelled.
- `default_params` in the OCR tables are recorded but never applied: the factory does not read them.
- Keyword arguments are modelled as the two the backends read (`output_format`, `languages`). A non-string `output_format`, which would make `.lower()` raise, is not modelled.
- Text.Lower: maps only ASCII letters. Python's `str.lower` also folds non-ASCII letters; the format labels and extensions involved are ASCII.
- Paths.Suffix: follows `pathlib` up to Python 3.12, where a name ending in a dot has no suffix, on POSIX paths. Path normalisation beyond trailing slashes is not modelled.
- FileSystem.Disk.CreateTemp: names are `/tmp/tmp` + a run of `a`s + the suffix, the first one free. `tempfile` draws random names and honours `TMPDIR`. The model keeps only their shape and freshness.
- Converter.WriteDownload: writes the UTF-8 bytes of the content. Newline translation in text mode, which is a no-op on POSIX, is not modelled.
- Timing and logging (`time.time`, `logging.info`) are left out. The process environment is a parameter (`GeminiFlashParser.Environment`).
- GeminiFlashParser.Parse: `genai.Client(api_key=…)` is assumed not to raise. Of the errors of `read_bytes()`, only a missing file is modelled. Its message shows the path as given, where `pathlib` would show it normalised (no doubled slashes).
- Text.Repr: escapes the backslash, the quote, and the ASCII control characters. Python's `repr` also escapes non-printable non-ASCII characters (such as U+0085 or U+2028 with `\x`, `\u` or `\U`), and the model does not.
- FileSystem.Disk.Read: only a missing file gets its own message. Every other `OSError` (permissions, a directory) is the injected fault, with its message taken as given.
- `src/docling_chat.py` (a network chat call), `setup.py`, `fix_tesseract_huggingface.py` and `app.py` are environment set-up and are not part of this model.
