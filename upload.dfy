/**
 * The backend's document processor: an uploaded file is loaded by its suffix (case does not
 * matter) and split into text chunks. The loaders and the splitter are library code and stay
 * abstract; only the dispatch and its error are modelled.
 */
module Upload {
  import opened Results
  import opened Text
  import Readings

  /**
   * The file system and libraries the processor relies on: whether a path exists (`present`), the document
   * texts each loader returns for a path (`None` where it raises), and the text splitter.
   */
  datatype Uploads = Uploads(
    present: string -> bool,
    loadPdf: string -> Option<seq<string>>,
    loadWord: string -> Option<seq<string>>,
    loadText: string -> Option<seq<string>>,
    split: seq<string> -> seq<string>)

  datatype ProcessError = UnsupportedFile(suffix: string) | LoadFailed(path: string)

  const ProcessedExts: set<string> := {".pdf", ".docx", ".txt"}

  /** `process_file`: pick the loader by lowercased suffix, load, split; the error shows the suffix as written. */
  function ProcessFile(up: Uploads, path: string): Result<seq<string>, ProcessError> {
    var suffix := Readings.Suffix(Readings.Name(path));
    ProcessByExtension(up, path, suffix, Lower(suffix))
  }

  function ProcessByExtension(up: Uploads, path: string, suffix: string, ext: string): Result<seq<string>, ProcessError> {
    var loaded :=
      if ext == ".pdf" then up.loadPdf(path)
      else if ext == ".docx" then up.loadWord(path)
      else if ext == ".txt" then up.loadText(path)
      else None;
    if ext !in ProcessedExts then Err(UnsupportedFile(suffix))
    else if loaded.None? then Err(LoadFailed(path))
    else Ok(up.split(loaded.value))
  }

  /**
   * A file is refused exactly when its lowercased suffix is not ".pdf", ".docx" or ".txt" (so a
   * ".doc" file is refused here), and the error carries the suffix with its original case; an
   * accepted file that loads yields the splitter's chunks of what its loader returned.
   */
  lemma ProcessFileDispatch(up: Uploads, path: string)
    ensures var suffix := Readings.Suffix(Readings.Name(path));
      && (ProcessFile(up, path) == Err(UnsupportedFile(suffix)) <==> Lower(suffix) !in ProcessedExts)
      && (ProcessFile(up, path).Ok? ==> Lower(suffix) in ProcessedExts)
  {
    var suffix := Readings.Suffix(Readings.Name(path));
    ProcessByExtensionDispatch(up, path, suffix, Lower(suffix));
  }

  lemma ProcessByExtensionDispatch(up: Uploads, path: string, suffix: string, ext: string)
    ensures ProcessByExtension(up, path, suffix, ext) == Err(UnsupportedFile(suffix)) <==> ext !in ProcessedExts
    ensures ProcessByExtension(up, path, suffix, ext).Ok? ==> ext in ProcessedExts
    ensures ext == ".pdf" && up.loadPdf(path).Some? ==> ProcessByExtension(up, path, suffix, ext) == Ok(up.split(up.loadPdf(path).value))
    ensures ext == ".docx" && up.loadWord(path).Some? ==> ProcessByExtension(up, path, suffix, ext) == Ok(up.split(up.loadWord(path).value))
    ensures ext == ".txt" && up.loadText(path).Some? ==> ProcessByExtension(up, path, suffix, ext) == Ok(up.split(up.loadText(path).value))
  {
  }
}
