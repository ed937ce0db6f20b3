/** How an output-format label chosen in the interface travels to the
    backends. `convert_file` lower-cases the label; the backends compare the
    lower-cased value again with "json", "text" and "document_tags". The
    label "Document Tags" therefore arrives as "document tags", with a space,
    and neither backend recognises it: both take their markdown branch, while
    the download file still gets the `.doctags` extension. */
module FormatRouting {

  import opened Wrappers
  import opened Text
  import opened Paths
  import opened FileSystem
  import opened ParserInterface
  import R = Registry
  import PF = ParserFactory
  import Converter
  import Docling = DoclingParser
  import Gemini = GeminiFlashParser

  /** The four labels of the interface's output-format selector. */
  const Labels: seq<string> := ["Markdown", "JSON", "Text", "Document Tags"]

  /** The lower-cased labels, as `convert_file` forwards them. */
  lemma LowerLabels()
    ensures Lower("JSON") == "json" && Lower("Text") == "text" && Lower("Markdown") == "markdown"
    ensures Lower("Document Tags") == "document tags" != "document_tags"
  {
    assert "document tags"[8] != "document_tags"[8];
  }

  /** "JSON" and "Text" reach their branches in both backends; "Markdown"
      reaches the default branch; "Document Tags" reaches the default branch
      too, although its download is named `.doctags`. */
  lemma LabelsInBackends(content: string, dumps: string -> string)
    ensures Docling.ExportChoice(Converter.BackendKwargs("JSON").outputFormat) == Docling.JsonDict
    ensures Docling.ExportChoice(Converter.BackendKwargs("Text").outputFormat) == Docling.PlainText
    ensures Docling.ExportChoice(Converter.BackendKwargs("Markdown").outputFormat) == Docling.Markdown
    ensures Docling.ExportChoice(Converter.BackendKwargs("Document Tags").outputFormat) == Docling.Markdown
    ensures Gemini.PostProcess(Converter.BackendKwargs("JSON").outputFormat, content, dumps) == dumps(content)
    ensures Gemini.PostProcess(Converter.BackendKwargs("Text").outputFormat, content, dumps)
            == Without(content, Gemini.MarkdownMarks)
    ensures Gemini.PostProcess(Converter.BackendKwargs("Markdown").outputFormat, content, dumps) == content
    ensures Gemini.PostProcess(Converter.BackendKwargs("Document Tags").outputFormat, content, dumps) == content
    ensures Converter.OutputExtension("Document Tags") == ".doctags"
  {
    LowerLabels();
    Gemini.StripMarksSpec(content);
  }

  /** No label reaches a document-tags branch: the only way to get
      Docling's token export, or Gemini's `<doc>` wrapping, is a format
      that lower-cases to "document_tags", and no label does. */
  lemma NoLabelReachesDocumentTags(choice: string)
    requires choice in Labels
    ensures Docling.ExportChoice(Converter.BackendKwargs(choice).outputFormat) != Docling.DocumentTokens
    ensures Lower(choice) != "document_tags"
  {
    LowerLabels();
  }

  /** End to end through the factory: asking the Gemini backend for
      "Document Tags" gives exactly what asking it for "Markdown" gives, the
      model's text unchanged. */
  lemma GeminiDocumentTagsIsMarkdown(reg: R.Registry, env: Gemini.Environment, model: Gemini.Model,
                                     dumps: string -> string, files: map<Path, Bytes>, filePath: Path,
                                     parserName: string, ocrMethodName: string)
    ensures var backend := Gemini.AsBackend(env, model, dumps);
            PF.ParseDocument(reg, backend, files, filePath, parserName, ocrMethodName,
                             Converter.BackendKwargs("Document Tags"))
            == PF.ParseDocument(reg, backend, files, filePath, parserName, ocrMethodName,
                                Converter.BackendKwargs("Markdown"))
  {
    LowerLabels();
    var tags, markdown := Converter.BackendKwargs("Document Tags"), Converter.BackendKwargs("Markdown");
    forall text: string, d: string -> string
      ensures Gemini.PostProcess(tags.outputFormat, text, d) == Gemini.PostProcess(markdown.outputFormat, text, d)
    {
    }
    assert forall p :: Gemini.Parse(env, model, dumps, files, p, tags) == Gemini.Parse(env, model, dumps, files, p, markdown);
  }
}
