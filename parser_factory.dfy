/** `ParserFactory`: resolve a parser by name, resolve the user's OCR display
    name to the parser's internal id, then hand the document to the backend. */
module ParserFactory {

  import opened Wrappers
  import opened Paths
  import opened ParserInterface
  import FileSystem
  import R = Registry

  /** The exceptions `parse_document` lets out: its own two `ValueError`s and
      whatever the backend raised. */
  datatype FactoryError =
    | UnknownParser(parser: string)
    | UnknownOcrMethod(ocr: string, parser: string)
    | Raised(message: string)
  {
    /** `str(e)` of the exception. */
    function Message(): string {
      match this
      case UnknownParser(p) => "Unknown parser: " + p
      case UnknownOcrMethod(m, p) => "Unknown OCR method: " + m + " for parser " + p
      case Raised(m) => m
    }
  }

  /** `ParserFactory.create_parser(name)`: an instance of the registered
      class, or `None` when no class is registered under `name`. */
  function CreateParser(reg: R.Registry, name: string): (r: Option<ParserClass>)
    ensures r.None? <==> reg.ParserClassOf(name).None?
    ensures r.Some? ==> r.value == reg.classes[name]
  {
    match reg.ParserClassOf(name)
    case None => None
    case Some(c) => Some(c)
  }

  /** A backend's answer as the factory passes it on: content unchanged, an
      exception uncaught. */
  function Propagate(answer: Result<string, string>): (r: Result<string, FactoryError>)
    ensures answer.Success? <==> r.Success?
    ensures answer.Success? ==> r.value == answer.value
    ensures answer.Failure? ==> r.error == Raised(answer.error)
  {
    match answer
    case Success(c) => Success(c)
    case Failure(m) => Failure(Raised(m))
  }

  /** `ParserFactory.parse_document(file_path, parser_name, ocr_method_name, **kwargs)`.
      An empty id counts as missing, as `if not ocr_method_id` does. */
  function ParseDocument(reg: R.Registry, backend: Backend, files: map<Path, FileSystem.Bytes>,
                         filePath: Path, parserName: string, ocrMethodName: string,
                         kwargs: Kwargs): (r: Result<string, FactoryError>)
    ensures parserName !in reg.classes ==> r == Failure(UnknownParser(parserName))
  {
    match CreateParser(reg, parserName)
    case None => Failure(UnknownParser(parserName))
    case Some(parser) =>
      match reg.OcrMethodId(parserName, ocrMethodName)
      case None => Failure(UnknownOcrMethod(ocrMethodName, parserName))
      case Some(id) =>
        if id == "" then Failure(UnknownOcrMethod(ocrMethodName, parserName))
        else Propagate(backend(parser, files, filePath, id, kwargs))
  }

  /** The display name is resolved only for a known parser, and it is
      rejected exactly when the parser's table has no entry with that display
      name, or the entry found has an empty id. */
  lemma UnknownOcrMethodExactly(reg: R.Registry, backend: Backend, files: map<Path, FileSystem.Bytes>,
                                filePath: Path, parserName: string, ocrMethodName: string, kwargs: Kwargs)
    requires parserName in reg.classes
    ensures var r := ParseDocument(reg, backend, files, filePath, parserName, ocrMethodName, kwargs);
            var found := LookupOcrId(reg.classes[parserName].ocrMethods, ocrMethodName);
            r == Failure(UnknownOcrMethod(ocrMethodName, parserName))
            <==> (found.None? || found == Some(""))
  {
  }

  /** When `parse_document` rejects a request, the backend is never asked:
      the answer is the same whatever the backend, the files, the path or the
      keyword arguments. An unknown parser is reported before any OCR lookup,
      so its error does not depend on the OCR display name either. */
  lemma RejectionsIgnoreBackend(reg: R.Registry, b1: Backend, b2: Backend,
                                f1: map<Path, FileSystem.Bytes>, f2: map<Path, FileSystem.Bytes>,
                                p1: Path, p2: Path, parserName: string, ocr1: string, ocr2: string,
                                k1: Kwargs, k2: Kwargs)
    requires ParseDocument(reg, b1, f1, p1, parserName, ocr1, k1).Failure?
    requires !ParseDocument(reg, b1, f1, p1, parserName, ocr1, k1).error.Raised?
    ensures ParseDocument(reg, b1, f1, p1, parserName, ocr1, k1) == ParseDocument(reg, b2, f2, p2, parserName, ocr1, k2)
    ensures parserName !in reg.classes ==>
              ParseDocument(reg, b1, f1, p1, parserName, ocr1, k1) == ParseDocument(reg, b2, f2, p2, parserName, ocr2, k2)
  {
  }

  /** Whenever the backend is reached, it was called with the class
      registered under the name, the id that the class's OCR table lists for
      the display name (not the display name, and never empty), the same file
      path and the keyword arguments unchanged; its content comes back
      unmodified and its exception uncaught. */
  lemma BackendCalledWithResolvedId(reg: R.Registry, backend: Backend, files: map<Path, FileSystem.Bytes>,
                                    filePath: Path, parserName: string, ocrMethodName: string, kwargs: Kwargs)
    requires var r := ParseDocument(reg, backend, files, filePath, parserName, ocrMethodName, kwargs);
             r.Success? || r.error.Raised?
    ensures parserName in reg.classes
    ensures var methods := reg.classes[parserName].ocrMethods;
            exists i :: && 0 <= i < |methods|
                        && methods[i].name == ocrMethodName
                        && methods[i].id != ""
                        && ParseDocument(reg, backend, files, filePath, parserName, ocrMethodName, kwargs)
                           == Propagate(backend(reg.classes[parserName], files, filePath, methods[i].id, kwargs))
  {
    var methods := reg.classes[parserName].ocrMethods;
    var id := LookupOcrId(methods, ocrMethodName).value;
    var i :| 0 <= i < |methods| && methods[i].name == ocrMethodName && methods[i].id == id;
  }

  /** Choosing the `k`-th OCR option the interface offers for a parser whose
      display names are distinct and whose ids are non-empty reaches the
      backend with the `k`-th id of the table. */
  lemma OfferedOptionDispatch(reg: R.Registry, backend: Backend, files: map<Path, FileSystem.Bytes>,
                              filePath: Path, parserName: string, kwargs: Kwargs, k: nat)
    requires parserName in reg.classes
    requires DistinctNames(reg.classes[parserName].ocrMethods)
    requires k < |reg.OcrOptions(parserName)|
    requires reg.classes[parserName].ocrMethods[k].id != ""
    ensures ParseDocument(reg, backend, files, filePath, parserName, reg.OcrOptions(parserName)[k], kwargs)
            == Propagate(backend(reg.classes[parserName], files, filePath,
                                 reg.classes[parserName].ocrMethods[k].id, kwargs))
  {
    R.OcrOptionsResolve(reg, parserName, k);
  }
}
