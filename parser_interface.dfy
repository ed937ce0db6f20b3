/** What every backend parser offers the registry and the factory: a name,
    an ordered table of OCR methods, and `parse`. */
module ParserInterface {

  import opened Wrappers
  import opened Paths
  import FileSystem

  /** Default parameters listed beside an OCR method. */
  datatype DefaultParams = DefaultParams(languages: Option<seq<string>>, useGpu: Option<bool>)

  const NoParams := DefaultParams(None, None)

  /** One `{"id": …, "name": …, "default_params": …}` entry: `id` is the
      internal identifier, `name` the display name shown to the user. */
  datatype OcrMethod = OcrMethod(id: string, name: string, defaultParams: DefaultParams)

  /** A registered parser class, as the registry describes it. */
  datatype ParserClass = ParserClass(name: string, ocrMethods: seq<OcrMethod>)

  /** The keyword arguments a backend's `parse` reads; `None` is a keyword
      that was not passed. */
  datatype Kwargs = Kwargs(outputFormat: Option<string>, languages: Option<seq<string>>)

  /** A backend instance's `parse(file_path, ocr_method=…, **kwargs)`, given
      the parser class, the files it may read, the path, the OCR id and the
      keyword arguments; `Failure(message)` is the exception it raises. */
  type Backend = (ParserClass, map<Path, FileSystem.Bytes>, Path, string, Kwargs) -> Result<string, string>

  /** The display names of a table of OCR methods, in order. */
  function DisplayNames(methods: seq<OcrMethod>): (r: seq<string>)
    ensures |r| == |methods|
    ensures forall i :: 0 <= i < |methods| ==> r[i] == methods[i].name
  {
    seq(|methods|, i requires 0 <= i < |methods| => methods[i].name)
  }

  /** No two entries share an id. */
  predicate DistinctIds(methods: seq<OcrMethod>) {
    forall i, j :: 0 <= i < j < |methods| ==> methods[i].id != methods[j].id
  }

  /** No two entries share a display name. */
  predicate DistinctNames(methods: seq<OcrMethod>) {
    forall i, j :: 0 <= i < j < |methods| ==> methods[i].name != methods[j].name
  }

  /** The id of the first entry whose display name is `display`. */
  function LookupOcrId(methods: seq<OcrMethod>, display: string): (r: Option<string>)
    ensures r.None? <==> forall i :: 0 <= i < |methods| ==> methods[i].name != display
    ensures r.Some? ==> exists i :: 0 <= i < |methods| && methods[i].name == display && methods[i].id == r.value
    decreases |methods|
  {
    if methods == [] then None
    else if methods[0].name == display then Some(methods[0].id)
    else
      var r := LookupOcrId(methods[1..], display);
      assert forall i :: 1 <= i < |methods| ==> methods[i] == methods[1..][i - 1];
      r
  }

  /** When display names are distinct, the reverse lookup does not depend on
      how ties would be broken: it returns the id of the one entry with that
      display name. */
  lemma LookupOcrIdUnique(methods: seq<OcrMethod>, k: nat)
    requires DistinctNames(methods) && k < |methods|
    ensures LookupOcrId(methods, methods[k].name) == Some(methods[k].id)
  {
    var r := LookupOcrId(methods, methods[k].name);
    var i :| 0 <= i < |methods| && methods[i].name == methods[k].name && methods[i].id == r.value;
    assert i == k;
  }
}
