/** The parser registry, seen from outside: an insertion-ordered map from
    parser name to parser class. How it is filled (import-time
    self-registration) and what it does with a name registered twice are not
    part of this model; only the lookups the factory and the user interface
    call are. */
module Registry {

  import opened Wrappers
  import opened ParserInterface

  datatype Registry = Registry(order: seq<string>, classes: map<string, ParserClass>) {

    /** Names are listed once each, in registration order, and are exactly
        the keys of the map. */
    ghost predicate Valid() {
      && (forall i, j :: 0 <= i < j < |order| ==> order[i] != order[j])
      && (forall n :: n in classes <==> n in order)
    }

    /** `ParserRegistry.get_parser_names()`. */
    function ParserNames(): (r: seq<string>)
      requires Valid()
      ensures forall n :: n in r <==> n in classes
    {
      order
    }

    /** `ParserRegistry.get_parser_class(name)`: the class, or `None`. */
    function ParserClassOf(name: string): (r: Option<ParserClass>)
      ensures r.None? <==> name !in classes
      ensures r.Some? ==> r.value == classes[name]
    {
      if name in classes then Some(classes[name]) else None
    }

    /** `ParserRegistry.get_ocr_options(name)`: display names in table order,
        empty for an unknown parser. */
    function OcrOptions(name: string): (r: seq<string>)
      ensures name !in classes ==> r == []
      ensures name in classes ==> r == DisplayNames(classes[name].ocrMethods)
    {
      if name in classes then DisplayNames(classes[name].ocrMethods) else []
    }

    /** `ParserRegistry.get_ocr_method_id(name, display)`: the internal id
        behind a display name, or `None` if the parser or the name is unknown. */
    function OcrMethodId(name: string, display: string): (r: Option<string>)
      ensures name !in classes ==> r.None?
      ensures name in classes ==> r == LookupOcrId(classes[name].ocrMethods, display)
    {
      if name in classes then LookupOcrId(classes[name].ocrMethods, display) else None
    }
  }

  /** Asking for the OCR options of an unknown parser gives the empty list,
      and every option offered for a known parser resolves to the id of the
      entry it came from, whenever that parser's display names are distinct. */
  lemma OcrOptionsResolve(reg: Registry, name: string, k: nat)
    requires name in reg.classes
    requires DistinctNames(reg.classes[name].ocrMethods)
    requires k < |reg.OcrOptions(name)|
    ensures reg.OcrMethodId(name, reg.OcrOptions(name)[k]) == Some(reg.classes[name].ocrMethods[k].id)
  {
    LookupOcrIdUnique(reg.classes[name].ocrMethods, k);
  }
}
