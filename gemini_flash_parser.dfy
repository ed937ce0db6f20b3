/** The Gemini Flash backend: its one-entry OCR table, the MIME type chosen
    from the file's extension, the inline-or-upload choice by size, and the
    post-processing of the model's text for the requested format. The
    `genai` client, the process environment and `json.dumps` are
    parameters. */
module GeminiFlashParser {

  import opened Wrappers
  import opened Text
  import opened Paths
  import opened FileSystem
  import opened ParserInterface
  import R = Registry
  import PF = ParserFactory

  const Name: string := "Gemini Flash"

  /** `get_supported_ocr_methods()`: a single entry. */
  function OcrMethods(): seq<OcrMethod> {
    [OcrMethod("none", "None", NoParams)]
  }

  /** The class as the registry holds it. */
  function Descriptor(): ParserClass {
    ParserClass(Name, OcrMethods())
  }

  /** The only display name, "None", resolves to the id "none"; any other
      display name resolves to nothing. */
  lemma OcrTable(display: string)
    ensures |OcrMethods()| == 1 && DistinctIds(OcrMethods()) && DistinctNames(OcrMethods())
    ensures LookupOcrId(OcrMethods(), "None") == Some("none")
    ensures display != "None" ==> LookupOcrId(OcrMethods(), display).None?
  {
  }

  /** Once the class is registered, the interface offers only "None"; the
      factory hands that to the backend as "none" and rejects every other
      display name. */
  lemma RegisteredOcrOptions(reg: R.Registry, backend: Backend, files: map<Path, Bytes>,
                             filePath: Path, ocrMethodName: string, kwargs: Kwargs)
    requires Name in reg.classes && reg.classes[Name] == Descriptor()
    ensures reg.OcrOptions(Name) == ["None"]
    ensures ocrMethodName == "None" ==>
              PF.ParseDocument(reg, backend, files, filePath, Name, ocrMethodName, kwargs)
              == PF.Propagate(backend(Descriptor(), files, filePath, "none", kwargs))
    ensures ocrMethodName != "None" ==>
              PF.ParseDocument(reg, backend, files, filePath, Name, ocrMethodName, kwargs)
              == Failure(PF.UnknownOcrMethod(ocrMethodName, Name))
  {
    OcrTable(ocrMethodName);
  }

  // ---------------------------------------------------------------- MIME types

  const DefaultMimeType: string := "application/pdf"

  /** The extension table of `_get_mime_type`. */
  const MimeTable: map<string, string> := map[
    ".pdf" := "application/pdf",
    ".txt" := "text/plain",
    ".html" := "text/html",
    ".htm" := "text/html",
    ".xml" := "text/xml",
    ".csv" := "text/csv",
    ".md" := "text/markdown",
    ".rtf" := "text/rtf",
    ".js" := "application/javascript",
    ".py" := "text/x-python",
    ".jpg" := "image/jpeg",
    ".jpeg" := "image/jpeg",
    ".png" := "image/png",
    ".gif" := "image/gif",
    ".bmp" := "image/bmp",
    ".webp" := "image/webp",
    ".tiff" := "image/tiff",
    ".tif" := "image/tiff",
    ".xlsx" := "application/vnd.openxmlformats-officedocument.spreadsheetml.sheet",
    ".xls" := "application/vnd.ms-excel",
    ".docx" := "application/vnd.openxmlformats-officedocument.wordprocessingml.document",
    ".doc" := "application/msword",
    ".pptx" := "application/vnd.openxmlformats-officedocument.presentationml.presentation",
    ".ppt" := "application/vnd.ms-powerpoint",
    ".json" := "application/json",
    ".yaml" := "application/x-yaml",
    ".yml" := "application/x-yaml",
    ".tex" := "application/x-tex",
    ".odt" := "application/vnd.oasis.opendocument.text",
    ".ods" := "application/vnd.oasis.opendocument.spreadsheet",
    ".odp" := "application/vnd.oasis.opendocument.presentation"
  ]

  /** `_get_mime_type(file_extension)`: the table's entry, or PDF. */
  function MimeType(extension: string): (r: string)
    ensures extension in MimeTable ==> r == MimeTable[extension]
    ensures extension !in MimeTable ==> r == DefaultMimeType
  {
    if extension in MimeTable then MimeTable[extension] else DefaultMimeType
  }

  /** The MIME type `parse` uses for a path: the lookup is on the lower-cased
      suffix. */
  function MimeTypeOf(filePath: Path): string {
    MimeType(Lower(Suffix(filePath)))
  }

  /** Aliased extensions share a type. */
  lemma MimeTableAliases()
    ensures MimeType(".htm") == MimeType(".html") == "text/html"
    ensures MimeType(".jpg") == MimeType(".jpeg") == "image/jpeg"
  {
  }

  /** More aliases, and the PDF fallback for every extension the table does
      not list. */
  lemma MimeTableFallback(extension: string)
    ensures MimeType(".tif") == MimeType(".tiff") == "image/tiff"
    ensures MimeType(".yml") == MimeType(".yaml") == "application/x-yaml"
    ensures extension !in MimeTable ==> MimeType(extension) == "application/pdf"
  {
  }

  /** Every key of the table is already lower case, so lower-casing the
      suffix first makes the lookup ignore case: `.PDF`, `.Pdf` and `.pdf`
      all find the `.pdf` entry. */
  lemma MimeTableKeysLowerCase()
    ensures forall k :: k in MimeTable ==> Lower(k) == k
  {
  }

  /** Two paths that differ only in ASCII case get the same type. */
  lemma MimeTypeIgnoresCase(p: Path, q: Path)
    requires Lower(p) == Lower(q)
    ensures MimeTypeOf(p) == MimeTypeOf(q)
  {
    LowerSuffix(p);
    LowerSuffix(q);
  }

  /** For instance an upper-case `.JPG` is a JPEG image and an upper-case
      `.PDF` a PDF. */
  lemma MimeTypeUpperCase()
    ensures MimeType(Lower(".JPG")) == "image/jpeg"
    ensures MimeType(Lower(".PDF")) == "application/pdf"
  {
    assert Lower(".JPG") == ".jpg";
    assert Lower(".PDF") == ".pdf";
  }

  // ---------------------------------------------------------------- sending the file

  /** Files below 20 MiB go inline in the request; larger ones go through
      the File API. */
  const InlineLimit: nat := 20 * 1024 * 1024

  datatype Transport = Inline | Upload

  function TransportFor(size: nat): (r: Transport)
    ensures r == Inline <==> size < 20971520
  {
    if size < InlineLimit then Inline else Upload
  }

  // ---------------------------------------------------------------- post-processing

  const MarkdownMarks: set<char> := {'#', '*', '_'}

  /** `content.replace("#", "").replace("*", "").replace("_", "")`. */
  function StripMarks(content: string): string {
    RemoveChar(RemoveChar(RemoveChar(content, '#'), '*'), '_')
  }

  /** The three replacements together drop exactly the characters `#`, `*`
      and `_`, keeping every other character in order and as often as it
      occurs. */
  lemma StripMarksSpec(content: string)
    ensures StripMarks(content) == Without(content, MarkdownMarks)
    ensures forall i :: 0 <= i < |StripMarks(content)| ==> StripMarks(content)[i] !in MarkdownMarks
    ensures forall x :: x !in MarkdownMarks ==> multiset(StripMarks(content))[x] == multiset(content)[x]
  {
    WithoutEmpty(content);
    RemoveCharAfterWithout(content, {}, '#');
    RemoveCharAfterWithout(content, {'#'}, '*');
    RemoveCharAfterWithout(content, {'#', '*'}, '_');
    assert {} + {'#'} == {'#'};
    assert {'#'} + {'*'} == {'#', '*'};
    assert {'#', '*'} + {'_'} == MarkdownMarks;
    WithoutKeeps(content, MarkdownMarks);
  }

  /** `f"<doc>\n{content}\n</doc>"`. */
  function DocTags(content: string): string {
    "<doc>\n" + content + "\n</doc>"
  }

  /** The model's text reshaped for `kwargs.get("output_format",
      "markdown").lower()`; `dumps` is `json.dumps({"content": …})`. */
  function PostProcess(outputFormat: Option<string>, content: string, dumps: string -> string): (r: string)
    ensures var f := Lower(outputFormat.GetOr("markdown"));
            f != "json" && f != "text" && f != "document_tags" ==> r == content
  {
    var format := Lower(outputFormat.GetOr("markdown"));
    if format == "json" then dumps(content)
    else if format == "text" then StripMarks(content)
    else if format == "document_tags" then DocTags(content)
    else content
  }

  /** What each format does to the text, whatever the case of the label: a
      JSON object, the text without markdown marks, the text between `<doc>`
      tags; with no format, or an unknown one, the text unchanged. */
  lemma PostProcessFormats(format: string, content: string, dumps: string -> string)
    ensures Lower(format) == "json" ==> PostProcess(Some(format), content, dumps) == dumps(content)
    ensures Lower(format) == "text" ==> PostProcess(Some(format), content, dumps) == Without(content, MarkdownMarks)
    ensures Lower(format) == "document_tags" ==>
              && PostProcess(Some(format), content, dumps) == DocTags(content)
              && |DocTags(content)| == |content| + 13
              && DocTags(content)[6..6 + |content|] == content
    ensures PostProcess(None, content, dumps) == content
  {
    StripMarksSpec(content);
    assert Lower("markdown") == "markdown";
  }

  // ---------------------------------------------------------------- parse

  const NotInstalledMessage: string :=
    "The Google Gemini API client is not installed. Please install it with 'pip install google-genai'."
  const NoApiKeyMessage: string :=
    "GOOGLE_API_KEY environment variable is not set. Please set it to your Gemini API key."
  const ProcessingErrorPrefix: string := "Error processing document with Gemini Flash: "

  /** What `parse` reads from outside: whether `google-genai` imported, and
      the `GOOGLE_API_KEY` environment variable. */
  datatype Environment = Environment(clientInstalled: bool, apiKey: Option<string>)

  predicate HasApiKey(env: Environment) {
    env.apiKey.Some? && env.apiKey.value != ""
  }

  /** One `generate_content` call on the `gemini-2.0-flash` model with the
      API key, the way the file is sent, its bytes and its MIME type; the
      answer is `response.text`, or the exception's message. */
  type Model = (string, Transport, Bytes, string) -> Result<string, string>

  /** `parse(file_path, ocr_method, **kwargs)`. The OCR method is not read. */
  function Parse(env: Environment, model: Model, dumps: string -> string, files: map<Path, Bytes>,
                 filePath: Path, kwargs: Kwargs): (r: Result<string, string>)
    ensures !env.clientInstalled ==> r == Failure(NotInstalledMessage)
    ensures env.clientInstalled && !HasApiKey(env) ==> r == Failure(NoApiKeyMessage)
    ensures env.clientInstalled && HasApiKey(env) && filePath !in files ==>
              r == Failure(MissingFileMessage(filePath))
  {
    if !env.clientInstalled then Failure(NotInstalledMessage)
    else if env.apiKey.None? || env.apiKey.value == "" then Failure(NoApiKeyMessage)
    else
      var extension := Lower(Suffix(filePath));
      if filePath !in files then Failure(MissingFileMessage(filePath))
      else
        var data := files[filePath];
        var mimeType := MimeType(extension);
        match model(env.apiKey.value, TransportFor(|data|), data, mimeType)
        case Failure(e) => Failure(ProcessingErrorPrefix + e)
        case Success(text) => Success(PostProcess(kwargs.outputFormat, text, dumps))
  }

  /** Once the client is installed, the key set and the file read, the model
      is asked with the file's bytes, the transport its size
      calls for and the MIME type of its suffix; a model failure comes back
      with the backend's prefix, and a model answer comes back post-processed
      for the requested format. */
  lemma ParseCallsModel(env: Environment, model: Model, dumps: string -> string, files: map<Path, Bytes>,
                        filePath: Path, kwargs: Kwargs)
    requires env.clientInstalled && HasApiKey(env) && filePath in files
    ensures var data := files[filePath];
            var answer := model(env.apiKey.value, TransportFor(|data|), data, MimeTypeOf(filePath));
            var r := Parse(env, model, dumps, files, filePath, kwargs);
            && (answer.Failure? <==> r.Failure?)
            && (answer.Failure? ==> r.error == ProcessingErrorPrefix + answer.error)
            && (answer.Success? ==> r.value == PostProcess(kwargs.outputFormat, answer.value, dumps))
  {
  }

  /** The rejections before the model call do not depend on the model: two
      different models give the same error. */
  lemma RejectionsIgnoreModel(env: Environment, m1: Model, m2: Model, dumps: string -> string,
                              files: map<Path, Bytes>, filePath: Path, kwargs: Kwargs)
    requires !env.clientInstalled || !HasApiKey(env) || filePath !in files
    ensures Parse(env, m1, dumps, files, filePath, kwargs) == Parse(env, m2, dumps, files, filePath, kwargs)
    ensures Parse(env, m1, dumps, files, filePath, kwargs).Failure?
  {
  }

  /** The backend as the factory calls it. */
  function AsBackend(env: Environment, model: Model, dumps: string -> string): (b: Backend)
    ensures forall cls, files, p, id, kwargs :: b(cls, files, p, id, kwargs) == Parse(env, model, dumps, files, p, kwargs)
  {
    (cls: ParserClass, files: map<Path, Bytes>, p: Path, id: string, kwargs: Kwargs) =>
      Parse(env, model, dumps, files, p, kwargs)
  }
}
