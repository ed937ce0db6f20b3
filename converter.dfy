/** `convert_file`: stage the upload into a temporary file that keeps its
    suffix, run the parser factory on the staged copy, write the result into a
    second temporary file whose extension follows the output format, and
    delete the staged copy -- the last only on the success path. */
module Converter {

  import opened Wrappers
  import opened Paths
  import opened Text
  import opened FileSystem
  import opened ParserInterface
  import R = Registry
  import PF = ParserFactory

  const NoFileMessage: string := "Please upload a file."

  function StagingError(message: string): string {
    "Error creating temporary file: " + message
  }

  function ConversionError(message: string): string {
    "Error: " + message
  }

  /** The extension of the download file for an output-format label. */
  function OutputExtension(outputFormat: string): string {
    if outputFormat == "Markdown" then ".md"
    else if outputFormat == "JSON" then ".json"
    else if outputFormat == "Text" then ".txt"
    else if outputFormat == "Document Tags" then ".doctags"
    else ".txt"
  }

  /** The mapping is total: the four labels get their own extensions and
      every other string gets `.txt`; each extension has the shape of a
      suffix, so the download file's suffix is that extension. */
  lemma OutputExtensionTable(outputFormat: string)
    ensures OutputExtension("Markdown") == ".md"
    ensures OutputExtension("JSON") == ".json"
    ensures OutputExtension("Text") == ".txt"
    ensures OutputExtension("Document Tags") == ".doctags"
    ensures outputFormat !in {"Markdown", "JSON", "Text", "Document Tags"} ==> OutputExtension(outputFormat) == ".txt"
    ensures OutputExtension(outputFormat) in {".md", ".json", ".txt", ".doctags"}
    ensures IsSuffixShape(OutputExtension(outputFormat))
  {
  }

  /** The keyword arguments `convert_file` passes to the factory:
      `output_format=output_format.lower()` and nothing else. */
  function BackendKwargs(outputFormat: string): (k: Kwargs)
    ensures k.outputFormat == Some(Lower(outputFormat)) && k.languages.None?
  {
    Kwargs(Some(Lower(outputFormat)), None)
  }

  /** Which operating-system calls raise, and with what message. */
  datatype Faults = Faults(
    createInput: Option<string>,       // NamedTemporaryFile for the staged input
    readInput: Option<string>,         // reading the uploaded file
    writeInput: Option<WriteFault>,    // writing the staged input
    createOutput: Option<string>,      // NamedTemporaryFile for the download
    writeOutput: Option<WriteFault>,   // writing the download
    unlinkInput: Option<string>)       // deleting the staged input

  /** `if not file_path`. */
  predicate NoFile(filePath: Option<Path>) {
    filePath.None? || filePath.value == ""
  }

  /** The files just after the staged copy has been written. */
  ghost function Staging(files: map<Path, Bytes>, source: Path, staged: Path): map<Path, Bytes>
    requires source in files[staged := []]
  {
    var created := files[staged := []];
    created[staged := created[source]]
  }

  /** How `convert_file` can end, path by path: what it returns and what is
      on disk afterwards (`after`), given the disk it started from
      (`before`). `staged` and `output` are the temporary files it created,
      if it got that far. */
  ghost predicate Outcome(before: map<Path, Bytes>, after: map<Path, Bytes>, filePath: Option<Path>,
                          parserName: string, ocrMethodName: string, outputFormat: string,
                          reg: R.Registry, backend: Backend, faults: Faults,
                          content: string, download: Option<Path>, staged: Option<Path>, output: Option<Path>)
  {
    // no file: nothing is touched
    && (NoFile(filePath) ==>
          content == NoFileMessage && download.None? && staged.None? && after == before)
    // the staged copy cannot be created: nothing is touched, the factory is not called
    && (!NoFile(filePath) && faults.createInput.Some? ==>
          && content == StagingError(faults.createInput.value) && download.None? && staged.None?
          && after == before)
    // otherwise the staged copy is a fresh temporary file with the upload's suffix
    && (!NoFile(filePath) && faults.createInput.None? ==>
          && staged.Some? && staged.value !in before
          && IsTempName(staged.value, Suffix(filePath.value))
          && Suffix(staged.value) == Suffix(filePath.value)
          && AfterStaging(before, after, filePath.value, staged.value, parserName, ocrMethodName, outputFormat,
                          reg, backend, faults, content, download, output))
    // a download exists only on success, holds the content and carries the format's extension
    && (download.Some? ==>
          && download == output && download.value in after
          && after[download.value] == Utf8(content)
          && IsTempName(download.value, OutputExtension(outputFormat)))
    // the staged copy is gone exactly when the call succeeded and deleting it did not fail
    && (staged.Some? ==> (staged.value !in after <==> download.Some? && faults.unlinkInput.None?))
  }

  /** The paths of `Outcome` once the staged file `staged` exists. */
  ghost predicate AfterStaging(before: map<Path, Bytes>, after: map<Path, Bytes>, source: Path, staged: Path,
                               parserName: string, ocrMethodName: string, outputFormat: string,
                               reg: R.Registry, backend: Backend, faults: Faults,
                               content: string, download: Option<Path>, output: Option<Path>)
  {
    var created := before[staged := []];
    // reading the upload or writing the copy fails: the staged file stays behind
    && (source !in created ==>
          content == StagingError(MissingFileMessage(source)) && download.None? && after == created)
    && (source in created && faults.readInput.Some? ==>
          content == StagingError(faults.readInput.value) && download.None? && after == created)
    && (source in created && faults.readInput.None? && faults.writeInput.Some? ==>
          && content == StagingError(faults.writeInput.value.message) && download.None?
          && after == created[staged := Kept(created[source], faults.writeInput.value)])
    // the copy is staged, holding the upload's bytes
    && (source in created && faults.readInput.None? && faults.writeInput.None? ==>
          && (source in before ==> Staging(before, source, staged)[staged] == before[source])
          && AfterFactory(Staging(before, source, staged), after, staged, parserName, ocrMethodName,
                          outputFormat, reg, backend, faults, content, download, output))
  }

  /** The paths of `Outcome` once the staged copy is in place: the factory
      sees it, under its own path, with the lower-cased format. */
  ghost predicate AfterFactory(staging: map<Path, Bytes>, after: map<Path, Bytes>, staged: Path,
                               parserName: string, ocrMethodName: string, outputFormat: string,
                               reg: R.Registry, backend: Backend, faults: Faults,
                               content: string, download: Option<Path>, output: Option<Path>)
  {
    var answer := PF.ParseDocument(reg, backend, staging, staged, parserName, ocrMethodName,
                                   BackendKwargs(outputFormat));
    // the factory raises: its message is reported, the staged copy is not deleted
    && (answer.Failure? ==>
          content == ConversionError(answer.error.Message()) && download.None? && after == staging)
    // the download file cannot be created: the staged copy is not deleted
    && (answer.Success? && faults.createOutput.Some? ==>
          content == ConversionError(faults.createOutput.value) && download.None? && after == staging)
    && (answer.Success? && faults.createOutput.None? ==>
          && output.Some? && output.value !in staging
          && IsTempName(output.value, OutputExtension(outputFormat))
          // writing the download fails: what it got so far and the staged copy stay behind
          && (faults.writeOutput.Some? ==>
                && content == ConversionError(faults.writeOutput.value.message) && download.None?
                && after == staging[output.value := Kept(Utf8(answer.value), faults.writeOutput.value)])
          // success: the content is the factory's, the download holds it, the staged copy is
          // deleted unless deleting it fails, which changes nothing in the answer
          && (faults.writeOutput.None? ==>
                && content == answer.value && download == output
                && after == (if faults.unlinkInput.None?
                             then staging[output.value := Utf8(content)] - {staged}
                             else staging[output.value := Utf8(content)])))
  }

  /** `src/converter.py:31-39`: copy the upload into a fresh temporary file with the same
      suffix. `staged` is the temporary file once it exists; `error` is the
      message of the exception that ended staging, if one did. */
  method StageInput(disk: Disk, source: Path, faults: Faults)
    returns (staged: Option<Path>, error: Option<string>)
    modifies disk
    ensures faults.createInput.Some? ==>
              staged.None? && error == faults.createInput && disk.files == old(disk.files)
    ensures faults.createInput.None? ==>
              && staged.Some? && staged.value !in old(disk.files)
              && IsTempName(staged.value, Suffix(source))
              && Suffix(staged.value) == Suffix(source)
    ensures faults.createInput.None? ==>
              var created := old(disk.files)[staged.value := []];
              && (source !in created ==> error == Some(MissingFileMessage(source)) && disk.files == created)
              && (source in created && faults.readInput.Some? ==> error == faults.readInput && disk.files == created)
              && (source in created && faults.readInput.None? && faults.writeInput.Some? ==>
                    && error == Some(faults.writeInput.value.message)
                    && disk.files == created[staged.value := Kept(created[source], faults.writeInput.value)])
              && (source in created && faults.readInput.None? && faults.writeInput.None? ==>
                    error.None? && disk.files == Staging(old(disk.files), source, staged.value))
  {
    var originalExt := Suffix(source);
    SuffixShape(source);
    var created := disk.CreateTemp(originalExt, faults.createInput);
    if created.Failure? {
      return None, Some(created.error);
    }
    var tempInput := created.value;
    TempNameSuffix(tempInput, originalExt);
    staged := Some(tempInput);
    var original := disk.Read(source, faults.readInput);
    if original.Failure? {
      return staged, Some(original.error);
    }
    var copied := disk.Write(tempInput, original.value, faults.writeInput);
    if copied.Failure? {
      return staged, Some(copied.error);
    }
    error := None;
  }

  /** `src/converter.py:67-71`: create the download file with extension `ext` and write
      `content` into it as UTF-8. */
  method WriteDownload(disk: Disk, content: string, ext: string, faults: Faults)
    returns (output: Option<Path>, error: Option<string>)
    requires IsSuffixShape(ext)
    modifies disk
    ensures faults.createOutput.Some? ==>
              output.None? && error == faults.createOutput && disk.files == old(disk.files)
    ensures faults.createOutput.None? ==>
              && output.Some? && output.value !in old(disk.files)
              && IsTempName(output.value, ext)
              && (faults.writeOutput.Some? ==>
                    && error == Some(faults.writeOutput.value.message)
                    && disk.files == old(disk.files)[output.value := Kept(Utf8(content), faults.writeOutput.value)])
              && (faults.writeOutput.None? ==> error.None? && disk.files == old(disk.files)[output.value := Utf8(content)])
  {
    var tmp := disk.CreateTemp(ext, faults.createOutput);
    if tmp.Failure? {
      return None, Some(tmp.error);
    }
    var tmpPath := tmp.value;
    output := Some(tmpPath);
    var written := disk.Write(tmpPath, Utf8(content), faults.writeOutput);
    if written.Failure? {
      return output, Some(written.error);
    }
    error := None;
  }

  /** `src/converter.py:14-81`. */
  method ConvertFile(disk: Disk, filePath: Option<Path>, parserName: string, ocrMethodName: string,
                     outputFormat: string, reg: R.Registry, backend: Backend, faults: Faults)
    returns (content: string, download: Option<Path>, ghost staged: Option<Path>, ghost output: Option<Path>)
    modifies disk
    ensures Outcome(old(disk.files), disk.files, filePath, parserName, ocrMethodName, outputFormat,
                    reg, backend, faults, content, download, staged, output)
  {
    staged, output := None, None;
    if filePath.None? || filePath.value == "" {
      return NoFileMessage, None, staged, output;
    }
    var source := filePath.value;
    var stagedInput, stagingError := StageInput(disk, source, faults);
    staged := stagedInput;
    if stagingError.Some? {
      return StagingError(stagingError.value), None, staged, output;
    }
    var tempInput := stagedInput.value;

    var answer := PF.ParseDocument(reg, backend, disk.files, tempInput, parserName, ocrMethodName,
                                   BackendKwargs(outputFormat));
    if answer.Failure? {
      return ConversionError(answer.error.Message()), None, staged, output;
    }

    var ext := OutputExtension(outputFormat);
    OutputExtensionTable(outputFormat);
    var tmpPath, writeError := WriteDownload(disk, answer.value, ext, faults);
    output := tmpPath;
    if writeError.Some? {
      return ConversionError(writeError.value), None, staged, output;
    }
    ghost var written := disk.files;
    assert tmpPath.value != tempInput && tempInput in written;
    assert tmpPath.value in written && written[tmpPath.value] == Utf8(answer.value);
    // a failure to delete the staged copy is swallowed
    var _ := disk.Unlink(tempInput, faults.unlinkInput);
    assert disk.files == written - {tempInput} || disk.files == written;
    assert tmpPath.value in disk.files && disk.files[tmpPath.value] == Utf8(answer.value);
    content, download := answer.value, tmpPath;
  }
}
