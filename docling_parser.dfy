/** The Docling backend: its table of OCR methods, the pipeline options its
    `parse` builds for each OCR id, and the export it picks for an output
    format. The Docling engine itself (layout analysis, OCR, the exporters
    and `json.dumps`) is the parameter `convert`. */
module DoclingParser {

  import opened Wrappers
  import opened Text
  import opened Paths
  import opened ParserInterface
  import FileSystem
  import R = Registry
  import PF = ParserFactory

  const Name: string := "Docling"

  // ---------------------------------------------------------------- the OCR table

  const EasyOcrParams := DefaultParams(Some(["en"]), None)
  const EasyOcrCpuParams := DefaultParams(Some(["en"]), Some(false))

  /** `get_supported_ocr_methods()`, in table order. */
  function OcrMethods(): seq<OcrMethod> {
    [ OcrMethod("no_ocr", "No OCR", NoParams),
      OcrMethod("easyocr", "EasyOCR", EasyOcrParams),
      OcrMethod("easyocr_cpu", "EasyOCR (CPU only)", EasyOcrCpuParams),
      OcrMethod("tesseract", "Tesseract", NoParams),
      OcrMethod("tesseract_cli", "Tesseract CLI", NoParams),
      OcrMethod("ocrmac", "ocrmac", NoParams),
      OcrMethod("full_force_ocr", "Full Force OCR", NoParams) ]
  }

  /** The class as the registry holds it. */
  function Descriptor(): ParserClass {
    ParserClass(Name, OcrMethods())
  }

  /** No two entries of the table share an id. */
  lemma OcrTableIds()
    ensures DistinctIds(OcrMethods())
  {
    var t := OcrMethods();
    forall i, j | 0 <= i < j < |t|
      ensures t[i].id != t[j].id
    {
      if |t[i].id| == |t[j].id| {
        assert t[i].id[0] != t[j].id[0];
      }
    }
  }

  /** No two entries of the table share a display name. */
  lemma OcrTableNames()
    ensures DistinctNames(OcrMethods())
  {
    var t := OcrMethods();
    forall i, j | 0 <= i < j < |t|
      ensures t[i].name != t[j].name
    {
      if |t[i].name| == |t[j].name| {
        assert t[i].name[0] != t[j].name[0];
      }
    }
  }

  /** Seven entries with "No OCR" first; ids and display names are pairwise
      distinct, so every display name the interface offers resolves back to
      the id it was listed with. */
  lemma OcrTable()
    ensures |OcrMethods()| == 7
    ensures OcrMethods()[0].id == "no_ocr" && OcrMethods()[0].name == "No OCR"
    ensures DistinctIds(OcrMethods()) && DistinctNames(OcrMethods())
    ensures forall k :: 0 <= k < 7 ==> LookupOcrId(OcrMethods(), OcrMethods()[k].name) == Some(OcrMethods()[k].id)
  {
    OcrTableIds();
    OcrTableNames();
    var t := OcrMethods();
    forall k | 0 <= k < 7
      ensures LookupOcrId(t, t[k].name) == Some(t[k].id)
    {
      LookupOcrIdUnique(t, k);
    }
  }

  /** Once the class is registered, the interface offers the seven display
      names in table order. */
  lemma RegisteredOcrOptions(reg: R.Registry)
    requires Name in reg.classes && reg.classes[Name] == Descriptor()
    ensures reg.OcrOptions(Name) == ["No OCR", "EasyOCR", "EasyOCR (CPU only)", "Tesseract",
                                     "Tesseract CLI", "ocrmac", "Full Force OCR"]
  {
  }

  /** Choosing the `k`-th option offered makes the factory call the backend
      with the `k`-th id of the table. */
  lemma RegisteredDispatch(reg: R.Registry, backend: Backend, files: map<Path, FileSystem.Bytes>,
                           filePath: Path, kwargs: Kwargs, k: nat)
    requires Name in reg.classes && reg.classes[Name] == Descriptor()
    requires k < |reg.OcrOptions(Name)|
    ensures PF.ParseDocument(reg, backend, files, filePath, Name, reg.OcrOptions(Name)[k], kwargs)
            == PF.Propagate(backend(Descriptor(), files, filePath, OcrMethods()[k].id, kwargs))
  {
    OcrTableNames();
    assert forall i :: 0 <= i < 7 ==> OcrMethods()[i].id != "";
    PF.OfferedOptionDispatch(reg, backend, files, filePath, Name, kwargs, k);
  }

  // ---------------------------------------------------------------- pipeline options

  datatype Device = Auto | Cpu | Cuda | Mps

  /** `AcceleratorOptions(num_threads=…, device=…)`. */
  datatype Accelerator = Accelerator(numThreads: int, device: Device)

  /** The OCR engine options a pipeline may carry; `EasyOcr` is Docling's
      default. */
  datatype OcrOptions =
    | EasyOcr(lang: seq<string>, useGpu: Option<bool>)
    | TesseractOcr
    | TesseractCliOcr(forceFullPageOcr: bool)
    | OcrMac

  /** The values of the pipeline options the backend reads or sets. */
  datatype PipelineConfig = PipelineConfig(doOcr: bool, doTableStructure: bool, doCellMatching: bool,
                                           ocrOptions: OcrOptions, accelerator: Accelerator)

  /** What a freshly constructed `PdfPipelineOptions()` holds; these values
      belong to the Docling library, not to this backend, so they are a
      parameter. The default OCR options are EasyOCR options. */
  datatype LibraryDefaults = LibraryDefaults(doOcr: bool, doTableStructure: bool, doCellMatching: bool,
                                             easyOcrLang: seq<string>, easyOcrUseGpu: Option<bool>,
                                             accelerator: Accelerator)

  function DefaultConfig(library: LibraryDefaults): PipelineConfig {
    PipelineConfig(library.doOcr, library.doTableStructure, library.doCellMatching,
                   EasyOcr(library.easyOcrLang, library.easyOcrUseGpu), library.accelerator)
  }

  /** A `PdfPipelineOptions` object, whose fields `parse` assigns one by one. */
  class PdfPipelineOptions {
    var doOcr: bool
    var doTableStructure: bool
    var doCellMatching: bool
    var ocrOptions: OcrOptions
    var accelerator: Accelerator

    constructor (library: LibraryDefaults)
      ensures Config() == DefaultConfig(library)
    {
      doOcr, doTableStructure, doCellMatching := library.doOcr, library.doTableStructure, library.doCellMatching;
      ocrOptions := EasyOcr(library.easyOcrLang, library.easyOcrUseGpu);
      accelerator := library.accelerator;
    }

    function Config(): PipelineConfig
      reads this
    {
      PipelineConfig(doOcr, doTableStructure, doCellMatching, ocrOptions, accelerator)
    }
  }

  /** `kwargs.get("languages", ["en"])`. */
  function Languages(kwargs: Kwargs): seq<string> {
    kwargs.languages.GetOr(["en"])
  }

  /** The options `parse` hands to the converter for an OCR id other than
      `full_force_ocr`: table structure and cell matching on, then one
      OCR branch per id of the table; any other id leaves the OCR settings
      as the library made them. */
  function PipelineFor(ocrMethod: string, kwargs: Kwargs, library: LibraryDefaults): PipelineConfig {
    var base := DefaultConfig(library).(doTableStructure := true, doCellMatching := true);
    if ocrMethod == "no_ocr" then base.(doOcr := false)
    else if ocrMethod == "easyocr" then
      base.(doOcr := true, ocrOptions := base.ocrOptions.(lang := Languages(kwargs)),
            accelerator := Accelerator(4, Auto))
    else if ocrMethod == "easyocr_cpu" then
      base.(doOcr := true, ocrOptions := base.ocrOptions.(lang := Languages(kwargs), useGpu := Some(false)))
    else if ocrMethod == "tesseract" then base.(doOcr := true, ocrOptions := TesseractOcr)
    else if ocrMethod == "tesseract_cli" then base.(doOcr := true, ocrOptions := TesseractCliOcr(false))
    else if ocrMethod == "ocrmac" then base.(doOcr := true, ocrOptions := OcrMac)
    else base
  }

  /** The options of `_apply_full_force_ocr`: OCR, table structure and cell
      matching on, Tesseract CLI forced to OCR whole pages. */
  function ForcedOcrConfig(library: LibraryDefaults): PipelineConfig {
    DefaultConfig(library).(doOcr := true, doTableStructure := true, doCellMatching := true,
                            ocrOptions := TesseractCliOcr(true))
  }

  /** The ids of the table that select an OCR engine. */
  predicate SelectsOcr(ocrMethod: string) {
    ocrMethod in {"easyocr", "easyocr_cpu", "tesseract", "tesseract_cli", "ocrmac"}
  }

  /** `no_ocr` turns OCR off and every other id of the table turns it on;
      table structure and cell matching are on for every id, forced path
      included. */
  lemma PipelineOcrSwitch(ocrMethod: string, kwargs: Kwargs, library: LibraryDefaults)
    ensures PipelineFor("no_ocr", kwargs, library).doOcr == false
    ensures SelectsOcr(ocrMethod) ==> PipelineFor(ocrMethod, kwargs, library).doOcr
    ensures ForcedOcrConfig(library).doOcr
    ensures PipelineFor(ocrMethod, kwargs, library).doTableStructure
    ensures PipelineFor(ocrMethod, kwargs, library).doCellMatching
    ensures ForcedOcrConfig(library).doTableStructure && ForcedOcrConfig(library).doCellMatching
  {
  }

  /** Both EasyOCR ids take the languages from the keyword arguments, with
      `["en"]` when none are passed; only the CPU variant turns the GPU off,
      and only the plain variant sets four threads on the automatic device. */
  lemma PipelineEasyOcr(kwargs: Kwargs, library: LibraryDefaults)
    ensures var c := PipelineFor("easyocr", kwargs, library);
            && c.ocrOptions == EasyOcr(Languages(kwargs), library.easyOcrUseGpu)
            && c.accelerator == Accelerator(4, Auto)
    ensures var c := PipelineFor("easyocr_cpu", kwargs, library);
            && c.ocrOptions == EasyOcr(Languages(kwargs), Some(false))
            && c.accelerator == library.accelerator
    ensures kwargs.languages.None? ==> Languages(kwargs) == ["en"]
  {
  }

  /** An id outside those branches (the forced path aside) leaves OCR, the
      OCR options and the accelerator exactly as the library made them. */
  lemma PipelineUnknownId(ocrMethod: string, kwargs: Kwargs, library: LibraryDefaults)
    requires ocrMethod != "no_ocr" && !SelectsOcr(ocrMethod)
    ensures var c := PipelineFor(ocrMethod, kwargs, library);
            && c.doOcr == library.doOcr
            && c.ocrOptions == DefaultConfig(library).ocrOptions
            && c.accelerator == library.accelerator
  {
  }

  // ---------------------------------------------------------------- export choice

  /** The four ways a converted document is exported. */
  datatype Export = JsonDict | PlainText | DocumentTokens | Markdown

  /** `kwargs.get("output_format", "markdown").lower()` chooses the export. */
  function ExportChoice(outputFormat: Option<string>): (r: Export)
    ensures r == JsonDict <==> Lower(outputFormat.GetOr("markdown")) == "json"
    ensures r == PlainText <==> Lower(outputFormat.GetOr("markdown")) == "text"
    ensures r == DocumentTokens <==> Lower(outputFormat.GetOr("markdown")) == "document_tags"
  {
    var format := Lower(outputFormat.GetOr("markdown"));
    if format == "json" then JsonDict
    else if format == "text" then PlainText
    else if format == "document_tags" then DocumentTokens
    else Markdown
  }

  /** The choice ignores case, and an absent format exports markdown. */
  lemma ExportChoiceIgnoresCase(a: string, b: string)
    requires Lower(a) == Lower(b)
    ensures ExportChoice(Some(a)) == ExportChoice(Some(b))
    ensures ExportChoice(None) == Markdown
    ensures ExportChoice(Some("JSON")) == JsonDict && ExportChoice(Some("Text")) == PlainText
  {
    assert Lower("markdown") == "markdown";
    assert Lower("JSON") == "json";
    assert Lower("Text") == "text";
  }

  // ---------------------------------------------------------------- parse

  /** The Docling engine: convert the file at a path under the given options
      and export the document the given way; `Failure` is an exception it
      raises. */
  type Engine = (PipelineConfig, Path, Export) -> Result<string, string>

  /** `_apply_full_force_ocr(file_path)`: markdown, whatever format was asked. */
  method ApplyFullForceOcr(filePath: Path, library: LibraryDefaults, convert: Engine) returns (r: Result<string, string>)
    ensures r == convert(ForcedOcrConfig(library), filePath, Markdown)
  {
    var options := new PdfPipelineOptions(library);
    options.doOcr := true;
    options.doTableStructure := true;
    options.doCellMatching := true;
    options.ocrOptions := TesseractCliOcr(true);
    r := convert(options.Config(), filePath, Markdown);
  }

  /** `parse(file_path, ocr_method, **kwargs)`: the forced path for
      `full_force_ocr`, otherwise options built branch by branch and the
      export chosen by the output format. */
  method Parse(filePath: Path, ocrMethod: string, kwargs: Kwargs, library: LibraryDefaults, convert: Engine)
    returns (r: Result<string, string>)
    ensures ocrMethod == "full_force_ocr" ==> r == convert(ForcedOcrConfig(library), filePath, Markdown)
    ensures ocrMethod != "full_force_ocr" ==>
              r == convert(PipelineFor(ocrMethod, kwargs, library), filePath, ExportChoice(kwargs.outputFormat))
  {
    if ocrMethod == "full_force_ocr" {
      r := ApplyFullForceOcr(filePath, library, convert);
      return;
    }
    var options := new PdfPipelineOptions(library);
    options.doTableStructure := true;
    options.doCellMatching := true;
    if ocrMethod == "no_ocr" {
      options.doOcr := false;
    } else if ocrMethod == "easyocr" {
      options.doOcr := true;
      options.ocrOptions := options.ocrOptions.(lang := Languages(kwargs));
      options.accelerator := Accelerator(4, Auto);
    } else if ocrMethod == "easyocr_cpu" {
      options.doOcr := true;
      options.ocrOptions := options.ocrOptions.(lang := Languages(kwargs));
      options.ocrOptions := options.ocrOptions.(useGpu := Some(false));
    } else if ocrMethod == "tesseract" {
      options.doOcr := true;
      options.ocrOptions := TesseractOcr;
    } else if ocrMethod == "tesseract_cli" {
      options.doOcr := true;
      options.ocrOptions := TesseractCliOcr(false);
    } else if ocrMethod == "ocrmac" {
      options.doOcr := true;
      options.ocrOptions := OcrMac;
    }
    r := convert(options.Config(), filePath, ExportChoice(kwargs.outputFormat));
  }
}
