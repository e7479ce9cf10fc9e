/**
 * The Reading-A/Reading-B helpers of the two-reading workflow: loading a file by its extension,
 * turning a file into a reading record, loading a folder of Reading B files in name order,
 * reading the learning objectives, flattening readings into retrievable chunks, and the
 * retrieval query, context block and objectives block of the annotation stage.
 */
module Readings {
  import opened Results
  import opened Text
  import StageText

  // ---------------------------------------------------------------- paths

  /**
   * The path without the trailing components pathlib ignores when naming it: trailing '/'
   * characters, trailing "/." components and a bare ".". What is dropped is only '/' and '.'.
   */
  function Trimmed(path: string): (t: string)
    ensures |t| <= |path| && t == path[..|t|]
    ensures forall i :: |t| <= i < |path| ==> path[i] == '/' || path[i] == '.'
    ensures t != [] ==> t[|t| - 1] != '/' && t != "." && !(|t| >= 2 && t[|t| - 2] == '/' && t[|t| - 1] == '.')
    decreases |path|
  {
    if path == [] then []
    else if path[|path| - 1] == '/' then
      var t := Trimmed(path[..|path| - 1]);
      assert path[..|path| - 1][..|t|] == path[..|t|];
      t
    else if path == "." then []
    else if |path| >= 2 && path[|path| - 2] == '/' && path[|path| - 1] == '.' then
      var t := Trimmed(path[..|path| - 2]);
      assert path[..|path| - 2][..|t|] == path[..|t|];
      t
    else path
  }

  /** Everything after the last '/'; a '/' precedes it unless it is the whole path. */
  function LastComponent(path: string): (name: string)
    ensures '/' !in name
    ensures |name| <= |path| && name == path[|path| - |name|..]
    ensures |name| < |path| ==> path[|path| - |name| - 1] == '/'
    decreases |path|
  {
    if path == [] || path[|path| - 1] == '/' then []
    else
      var name := LastComponent(path[..|path| - 1]) + [path[|path| - 1]];
      assert path[..|path| - 1][|path| - |name|..] + [path[|path| - 1]] == path[|path| - |name|..];
      name
  }

  /**
   * `path.name`: the last component that is neither empty nor ".", so that "notes/report.pdf/"
   * and "notes/report.pdf/." are both named "report.pdf".
   */
  function Name(path: string): (name: string)
    ensures '/' !in name && name != "." && |name| <= |path|
  {
    var t := Trimmed(path);
    LastComponent(t)
  }

  /** The name sits in the path, followed only by '/' and '.' characters. */
  lemma NameInPath(path: string) returns (i: nat)
    ensures i + |Name(path)| <= |path| && path[i..i + |Name(path)|] == Name(path)
    ensures forall j :: i + |Name(path)| <= j < |path| ==> path[j] == '/' || path[j] == '.'
  {
    var t := Trimmed(path);
    i := |t| - |Name(path)|;
    assert path[i..i + |Name(path)|] == t[i..];
  }

  /** Trailing '/' characters and "/." components do not change the name. */
  lemma NameIgnoresTrailing(p: string)
    ensures Name(p + "/") == Name(p)
    ensures Name(p + "/.") == Name(p)
  {
    var p1 := p + "/";
    var p2 := p + "/.";
    assert p1[..|p1| - 1] == p;
    assert Trimmed(p1) == Trimmed(p);
    assert p2 != "." && p2[|p2| - 2] == '/' && p2[|p2| - 1] == '.';
    assert p2[..|p2| - 2] == p;
    assert Trimmed(p2) == Trimmed(p);
  }

  /** pathlib's rule: the suffix starts at the last '.', unless that dot leads or ends the name. */
  predicate HasSuffix(name: string) {
    var i := RFindChar(name, '.');
    0 < i < |name| - 1
  }

  /** `path.suffix` of a name. */
  function Suffix(name: string): (ext: string)
    ensures ext != [] ==> |ext| >= 2 && ext[0] == '.' && '.' !in ext[1..]
  {
    var i := RFindChar(name, '.');
    if 0 < i < |name| - 1 then
      assert forall j :: 0 <= j < |name| - i - 1 ==> name[i..][1..][j] == name[i + 1 + j];
      name[i..]
    else ""
  }

  /** `path.stem` of a name. */
  function Stem(name: string): string {
    var i := RFindChar(name, '.');
    if 0 < i < |name| - 1 then name[..i] else name
  }

  /** A name is its stem followed by its suffix, and only the empty name has an empty stem. */
  lemma StemSuffix(name: string)
    ensures Stem(name) + Suffix(name) == name
    ensures Stem(name) == [] <==> name == []
    ensures HasSuffix(name) <==> Suffix(name) != []
  {
  }

  /** A name a directory listing yields: non-empty, not ".", and free of '/'. */
  predicate ListedName(name: string) {
    name != [] && name != "." && '/' !in name
  }

  /** The name of a listed child of a folder is the name it was listed under. */
  lemma NameOfChild(folder: string, name: string)
    requires ListedName(name)
    ensures Name(folder + "/" + name) == name
  {
    var p := folder + "/" + name;
    assert p[|p| - 1] == name[|name| - 1];
    assert p[|p| - 1] != '/';
    assert |name| >= 2 ==> p[|p| - 2] == name[|name| - 2];
    assert |name| == 1 ==> p[|p| - 1] == name[0] && name[0] != '.';
    assert Trimmed(p) == p;
    LastComponentOfChild(folder, name);
  }

  lemma {:induction false} LastComponentOfChild(folder: string, name: string)
    requires '/' !in name
    ensures LastComponent(folder + "/" + name) == name
    decreases |name|
  {
    var p := folder + "/" + name;
    if name == [] {
      assert p[|p| - 1] == '/';
    } else {
      var init := name[..|name| - 1];
      assert '/' !in init by {
        forall j | 0 <= j < |init| ensures init[j] != '/' {
          assert init[j] == name[j];
        }
      }
      var c := name[|name| - 1];
      LastComponentOfChild(folder, init);
      assert p == (folder + "/" + init) + [c];
      assert p[..|p| - 1] == folder + "/" + init;
      assert init + [c] == name;
    }
  }

  // ---------------------------------------------------------------- loading one file

  const SupportedExts: set<string> := {".pdf", ".txt", ".docx", ".doc"}

  /**
   * The third-party loaders, by path: the PDF loader's page texts, the text file's contents, the
   * Word loader's document texts; `None` where the loader raises.
   */
  datatype Loaders = Loaders(
    pdfPages: string -> Option<seq<string>>,
    readText: string -> Option<string>,
    wordDocs: string -> Option<seq<string>>)

  datatype FileError = UnsupportedType(ext: string) | LoaderFailed(path: string)

  /** The lowercased suffix the loader is chosen by. */
  function Extension(path: string): string {
    Lower(Suffix(Name(path)))
  }

  /** `load_file_text`: the loader is chosen by the lowercased suffix; pages and documents are joined by newlines. */
  function LoadFileText(ld: Loaders, path: string): Result<string, FileError> {
    LoadByExtension(ld, path, Extension(path))
  }

  function LoadByExtension(ld: Loaders, path: string, ext: string): Result<string, FileError> {
    if ext == ".pdf" then
      match ld.pdfPages(path)
      case None => Err(LoaderFailed(path))
      case Some(pages) => Ok(Join("\n", pages))
    else if ext == ".txt" then
      match ld.readText(path)
      case None => Err(LoaderFailed(path))
      case Some(text) => Ok(text)
    else if ext in {".docx", ".doc"} then
      match ld.wordDocs(path)
      case None => Err(LoaderFailed(path))
      case Some(docs) => Ok(Join("\n", docs))
    else Err(UnsupportedType(ext))
  }

  /**
   * The file type is refused exactly when its lowercased suffix is not one of the four, and the
   * error names that lowercased suffix; any other error comes from the loader itself.
   */
  lemma LoadFileTextDispatch(ld: Loaders, path: string)
    ensures LoadFileText(ld, path) == Err(UnsupportedType(Extension(path))) <==> Extension(path) !in SupportedExts
    ensures LoadFileText(ld, path).Err? && LoadFileText(ld, path).error.UnsupportedType? ==>
      Extension(path) !in SupportedExts
  {
    LoadByExtensionDispatch(ld, path, Extension(path));
  }

  lemma LoadByExtensionDispatch(ld: Loaders, path: string, ext: string)
    ensures LoadByExtension(ld, path, ext) == Err(UnsupportedType(ext)) <==> ext !in SupportedExts
    ensures LoadByExtension(ld, path, ext).Err? && LoadByExtension(ld, path, ext).error.UnsupportedType? ==>
      ext !in SupportedExts
  {
  }

  /** Pages joined by newlines can be told apart again, as long as no page holds a newline itself. */
  lemma NewlineJoinSplits(parts: seq<string>)
    requires parts != []
    requires forall k :: 0 <= k < |parts| ==> !Contains(parts[k], "\n")
    ensures SplitOn(Join("\n", parts), "\n") == parts
  {
    assert BorderFree("\n");
    SplitOnJoinInverse("\n", parts);
  }

  /** A PDF or Word file's text holds each page or document in order, one per line. */
  lemma LoadFileTextPages(ld: Loaders, path: string)
    requires Extension(path) in {".pdf", ".docx", ".doc"}
    requires var parts := if Extension(path) == ".pdf" then ld.pdfPages(path) else ld.wordDocs(path);
      parts.Some? && parts.value != [] && forall k :: 0 <= k < |parts.value| ==> !Contains(parts.value[k], "\n")
    ensures var parts := if Extension(path) == ".pdf" then ld.pdfPages(path) else ld.wordDocs(path);
      LoadFileText(ld, path).Ok? && SplitOn(LoadFileText(ld, path).value, "\n") == parts.value
  {
    var parts := if Extension(path) == ".pdf" then ld.pdfPages(path) else ld.wordDocs(path);
    NewlineJoinSplits(parts.value);
  }

  /** A reading as a record of title, author and content. */
  datatype Reading = Reading(title: string, author: string, content: string)

  /** `to_reading_dict_from_file`: `title or path.stem`, so both a missing and an empty title fall back. */
  function ToReadingDict(ld: Loaders, path: string, title: Option<string>, author: string): Result<Reading, FileError> {
    match LoadFileText(ld, path)
    case Err(e) => Err(e)
    case Ok(text) =>
      Ok(Reading(if title.None? || title.value == "" then Stem(Name(path)) else title.value, author, text))
  }

  /**
   * The record exists exactly when the file loads, holds the file's text and the given author,
   * and its title is never empty for a named file: a given non-empty title is kept, otherwise
   * the stem is used.
   */
  lemma ReadingTitle(ld: Loaders, path: string, title: Option<string>, author: string)
    ensures ToReadingDict(ld, path, title, author).Ok? <==> LoadFileText(ld, path).Ok?
    ensures ToReadingDict(ld, path, title, author).Ok? ==>
      var r := ToReadingDict(ld, path, title, author).value;
      && r.content == LoadFileText(ld, path).value && r.author == author
      && (title.Some? && title.value != "" ==> r.title == title.value)
      && (title.None? || title.value == "" ==> r.title == Stem(Name(path)))
      && (r.title == "" <==> Name(path) == [] && (title.None? || title.value == ""))
  {
    StemSuffix(Name(path));
  }

  // ---------------------------------------------------------------- the Reading B folder

  datatype Entry = Entry(name: string, isFile: bool)

  /** What the folder path denotes: nothing, something that is not a directory, or a directory's entries. */
  datatype Folder = Missing | NotDirectory | Directory(entries: seq<Entry>)

  /** Code-point lexicographic order, as Python compares strings (and paths in one folder). */
  predicate NameLe(a: string, b: string)
    decreases |a|
  {
    a == [] || (b != [] && (a[0] < b[0] || (a[0] == b[0] && NameLe(a[1..], b[1..]))))
  }

  lemma {:induction false} NameLeTotal(a: string, b: string)
    ensures NameLe(a, b) || NameLe(b, a)
    decreases |a|
  {
    if a != [] && b != [] && a[0] == b[0] {
      NameLeTotal(a[1..], b[1..]);
    }
  }

  predicate SortedByName(es: seq<Entry>) {
    forall i :: 0 <= i < |es| - 1 ==> NameLe(es[i].name, es[i + 1].name)
  }

  function InsertByName(e: Entry, es: seq<Entry>): (r: seq<Entry>)
    ensures multiset(r) == multiset(es) + multiset{e} && |r| == |es| + 1
    ensures r[0] == e || (es != [] && r[0] == es[0])
    decreases |es|
  {
    if es == [] || NameLe(e.name, es[0].name) then [e] + es
    else
      var r := [es[0]] + InsertByName(e, es[1..]);
      assert es == [es[0]] + es[1..];
      r
  }

  lemma {:induction false} InsertByNameSorted(e: Entry, es: seq<Entry>)
    requires SortedByName(es)
    ensures SortedByName(InsertByName(e, es))
    decreases |es|
  {
    if es != [] && !NameLe(e.name, es[0].name) {
      NameLeTotal(e.name, es[0].name);
      var tail := es[1..];
      InsertByNameSorted(e, tail);
      var r := InsertByName(e, es);
      assert r == [es[0]] + InsertByName(e, tail);
      assert NameLe(es[0].name, r[1].name) by {
        if tail != [] && r[1] == tail[0] {
          assert tail[0] == es[1];
        }
      }
    }
  }

  /** `sorted(folder.iterdir())`. */
  function SortByName(es: seq<Entry>): (r: seq<Entry>)
    ensures multiset(r) == multiset(es) && |r| == |es|
    decreases |es|
  {
    if es == [] then []
    else
      var n := |es| - 1;
      assert es == es[..n] + [es[n]];
      InsertByName(es[n], SortByName(es[..n]))
  }

  /** The listing is sorted by name and holds every entry the same number of times. */
  lemma {:induction false} SortByNameSorted(es: seq<Entry>)
    ensures SortedByName(SortByName(es)) && multiset(SortByName(es)) == multiset(es)
    decreases |es|
  {
    if es != [] {
      var n := |es| - 1;
      SortByNameSorted(es[..n]);
      InsertByNameSorted(es[n], SortByName(es[..n]));
    }
  }

  function ChildPath(folder: string, e: Entry): string {
    folder + "/" + e.name
  }

  /** A file the folder loop tries: a regular file whose lowercased suffix is supported. */
  predicate Eligible(folder: string, e: Entry) {
    e.isFile && Extension(ChildPath(folder, e)) in SupportedExts
  }

  /** The record one entry contributes, titled by its stem; a load failure contributes nothing. */
  function EntryReading(ld: Loaders, folder: string, e: Entry, author: string): Result<Reading, FileError> {
    var p := ChildPath(folder, e);
    ToReadingDict(ld, p, Some(Stem(Name(p))), author)
  }

  /** What one entry contributes to the folder's readings: its record, when it is eligible and loads. */
  function Attempt(ld: Loaders, folder: string, author: string): Entry -> Option<Reading> {
    e => if Eligible(folder, e) && EntryReading(ld, folder, e, author).Ok? then Some(EntryReading(ld, folder, e, author).value) else None
  }

  /** What the folder loop appends for the given entries, in the given order. */
  function Collect(es: seq<Entry>, attempt: Entry -> Option<Reading>): seq<Reading>
    decreases |es|
  {
    if es == [] then []
    else
      var n := |es| - 1;
      Collect(es[..n], attempt) + (if attempt(es[n]).Some? then [attempt(es[n]).value] else [])
  }

  /** `load_reading_b_folder`: nothing unless the path is a directory, else its eligible files in name order. */
  function FolderReadings(ld: Loaders, folder: string, fs: Folder, author: string): seq<Reading> {
    if fs.Directory? then Collect(SortByName(fs.entries), Attempt(ld, folder, author)) else []
  }

  /** An entry contributes exactly when it is a supported file that loads, and then its record. */
  lemma AttemptMeaning(ld: Loaders, folder: string, author: string, e: Entry)
    ensures Attempt(ld, folder, author)(e).Some? <==> Eligible(folder, e) && EntryReading(ld, folder, e, author).Ok?
    ensures Attempt(ld, folder, author)(e).Some? ==> EntryReading(ld, folder, e, author) == Ok(Attempt(ld, folder, author)(e).value)
  {
  }

  /** Every record comes from an entry that contributed it. */
  lemma {:induction false} CollectSources(es: seq<Entry>, attempt: Entry -> Option<Reading>, k: nat)
    requires k < |Collect(es, attempt)|
    ensures exists j :: 0 <= j < |es| && attempt(es[j]) == Some(Collect(es, attempt)[k])
    decreases |es|
  {
    var n := |es| - 1;
    var init := es[..n];
    if k < |Collect(init, attempt)| {
      CollectSources(init, attempt, k);
      var j :| 0 <= j < |init| && attempt(init[j]) == Some(Collect(init, attempt)[k]);
      assert init[j] == es[j];
    }
  }

  /** The loop keeps the listing's order: the records of a longer listing extend those of its prefix. */
  lemma {:induction false} CollectConcat(xs: seq<Entry>, ys: seq<Entry>, attempt: Entry -> Option<Reading>)
    ensures Collect(xs + ys, attempt) == Collect(xs, attempt) + Collect(ys, attempt)
    decreases |ys|
  {
    if ys == [] {
      assert xs + ys == xs;
    } else {
      var n := |ys| - 1;
      assert (xs + ys)[..|xs + ys| - 1] == xs + ys[..n];
      CollectConcat(xs, ys[..n], attempt);
    }
  }

  /** Only entries that contribute nothing are skipped: when every entry contributes, every entry is kept in order. */
  lemma {:induction false} CollectKeepsAll(es: seq<Entry>, attempt: Entry -> Option<Reading>)
    requires forall j :: 0 <= j < |es| ==> attempt(es[j]).Some?
    ensures |Collect(es, attempt)| == |es|
    ensures forall j :: 0 <= j < |es| ==> Collect(es, attempt)[j] == attempt(es[j]).value
    decreases |es|
  {
    if es != [] {
      var n := |es| - 1;
      var init := es[..n];
      assert forall j :: 0 <= j < |init| ==> init[j] == es[j];
      CollectKeepsAll(init, attempt);
    }
  }

  lemma {:induction false} CollectBound(es: seq<Entry>, attempt: Entry -> Option<Reading>)
    ensures |Collect(es, attempt)| <= |es|
    decreases |es|
  {
    if es != [] {
      CollectBound(es[..|es| - 1], attempt);
    }
  }

  /** A loaded entry's record carries the entry's stem as its title, the author and the file's text. */
  lemma EntryReadingShape(ld: Loaders, folder: string, e: Entry, author: string)
    requires ListedName(e.name) && EntryReading(ld, folder, e, author).Ok?
    ensures EntryReading(ld, folder, e, author).value ==
      Reading(Stem(e.name), author, LoadFileText(ld, ChildPath(folder, e)).value)
  {
    NameOfChild(folder, e.name);
  }

  /** A missing path or a plain file yields no readings; a directory yields at most one per entry. */
  lemma FolderReadingsCases(ld: Loaders, folder: string, fs: Folder, author: string)
    ensures !fs.Directory? ==> FolderReadings(ld, folder, fs, author) == []
    ensures fs.Directory? ==> |FolderReadings(ld, folder, fs, author)| <= |fs.entries|
  {
    if fs.Directory? {
      CollectBound(SortByName(fs.entries), Attempt(ld, folder, author));
    }
  }

  /** The folder loop itself: list, sort, try each eligible file, skip the ones that fail. */
  method LoadReadingBFolder(ld: Loaders, folder: string, fs: Folder, author: string) returns (docs: seq<Reading>)
    ensures docs == FolderReadings(ld, folder, fs, author)
  {
    docs := [];
    if !fs.Directory? {
      return;
    }
    var listing := SortByName(fs.entries);
    for i := 0 to |listing|
      invariant docs == Collect(listing[..i], Attempt(ld, folder, author))
    {
      assert listing[..i + 1][..i] == listing[..i];
      AttemptMeaning(ld, folder, author, listing[i]);
      var p := ChildPath(folder, listing[i]);
      if listing[i].isFile && Extension(p) in SupportedExts {
        var r := ToReadingDict(ld, p, Some(Stem(Name(p))), author);
        if r.Ok? {
          docs := docs + [r.value];
        }
      }
    }
    assert listing[..|listing|] == listing;
  }

  // ---------------------------------------------------------------- learning objectives

  /**
   * `load_objectives_file`: no path or a missing file gives no objectives; otherwise the
   * stripped non-blank lines. `readText` is the file's text by path, `None` when it does not exist.
   */
  function LoadObjectivesFile(path: Option<string>, readText: string -> Option<string>): seq<string> {
    if path.None? then []
    else match readText(path.value)
      case None => []
      case Some(text) => StrippedNonEmpty(SplitLines(text))
  }

  /**
   * Each objective is a non-empty line of the file with its surrounding whitespace cut off,
   * exactly the blank lines are dropped, and the objectives keep the file's line order: those of
   * the lines before any cut come before those of the lines after it.
   */
  lemma ObjectivesAreLines(path: Option<string>, readText: string -> Option<string>)
    ensures var objs := LoadObjectivesFile(path, readText);
      forall k :: 0 <= k < |objs| ==> objs[k] != [] && IsStripped(objs[k])
    ensures path.Some? && readText(path.value).Some? ==>
      var lines := SplitLines(readText(path.value).value);
      var objs := LoadObjectivesFile(path, readText);
      && |objs| == |lines| - BlankCount(lines)
      && (forall k :: 0 <= k < |objs| ==> exists j :: 0 <= j < |lines| && objs[k] == Strip(lines[j]))
      && forall i :: 0 <= i <= |lines| ==> objs == StrippedNonEmpty(lines[..i]) + StrippedNonEmpty(lines[i..])
  {
    if path.Some? && readText(path.value).Some? {
      var lines := SplitLines(readText(path.value).value);
      StrippedNonEmptyLength(lines);
      StrippedNonEmptyCuts(lines);
      forall k | 0 <= k < |StrippedNonEmpty(lines)|
        ensures exists j :: 0 <= j < |lines| && StrippedNonEmpty(lines)[k] == Strip(lines[j])
      {
        var j := StrippedNonEmptySources(lines, k);
      }
    }
  }

  lemma StrippedNonEmptyCuts(lines: seq<string>)
    ensures forall i :: 0 <= i <= |lines| ==> StrippedNonEmpty(lines) == StrippedNonEmpty(lines[..i]) + StrippedNonEmpty(lines[i..])
  {
    forall i | 0 <= i <= |lines|
      ensures StrippedNonEmpty(lines) == StrippedNonEmpty(lines[..i]) + StrippedNonEmpty(lines[i..])
    {
      assert lines == lines[..i] + lines[i..];
      StrippedNonEmptyConcat(lines[..i], lines[i..]);
    }
  }

  // ---------------------------------------------------------------- flattening Reading B into chunks

  /** A retrievable chunk: its text and the title and author of the reading it came from. */
  datatype Chunk = Chunk(content: string, title: string, author: string)

  /** `b.get(key, "")`. */
  function Get(b: map<string, string>, key: string): string {
    if key in b then b[key] else ""
  }

  /** The chunks of one reading, each carrying the reading's title and author. */
  function ChunksOf(b: map<string, string>, split: string -> seq<string>): (cs: seq<Chunk>)
    ensures |cs| == |split(Get(b, "content"))|
  {
    var pieces := split(Get(b, "content"));
    seq(|pieces|, i requires 0 <= i < |pieces| => Chunk(pieces[i], Get(b, "title"), Get(b, "author")))
  }

  /** The documents `b_to_docs` produces for the given readings. */
  function FlatChunks(blobs: seq<map<string, string>>, split: string -> seq<string>): seq<Chunk>
    decreases |blobs|
  {
    if blobs == [] then [] else FlatChunks(blobs[..|blobs| - 1], split) + ChunksOf(blobs[|blobs| - 1], split)
  }

  /** The number of chunks before reading `j`: where its chunks begin. */
  function ChunkCount(blobs: seq<map<string, string>>, split: string -> seq<string>): nat
    decreases |blobs|
  {
    if blobs == [] then 0 else ChunkCount(blobs[..|blobs| - 1], split) + |split(Get(blobs[|blobs| - 1], "content"))|
  }

  lemma {:induction false} FlatChunksLength(blobs: seq<map<string, string>>, split: string -> seq<string>)
    ensures |FlatChunks(blobs, split)| == ChunkCount(blobs, split)
    decreases |blobs|
  {
    if blobs != [] {
      FlatChunksLength(blobs[..|blobs| - 1], split);
    }
  }

  /**
   * Reading by reading and chunk by chunk: chunk `i` of reading `j` sits right after the chunks of
   * the readings before `j`, and carries reading `j`'s title and author.
   */
  lemma {:induction false} FlatChunksAt(blobs: seq<map<string, string>>, split: string -> seq<string>, j: nat, i: nat)
    requires j < |blobs| && i < |split(Get(blobs[j], "content"))|
    ensures ChunkCount(blobs[..j], split) + i < |FlatChunks(blobs, split)|
    ensures FlatChunks(blobs, split)[ChunkCount(blobs[..j], split) + i] ==
      Chunk(split(Get(blobs[j], "content"))[i], Get(blobs[j], "title"), Get(blobs[j], "author"))
    decreases |blobs|
  {
    var n := |blobs| - 1;
    var init := blobs[..n];
    FlatChunksLength(init, split);
    FlatChunksLength(blobs, split);
    if j < n {
      assert init[..j] == blobs[..j];
      assert init[j] == blobs[j];
      FlatChunksAt(init, split, j, i);
      ChunkCountPrefix(init, split, j);
    } else {
      assert blobs[..j] == init;
    }
  }

  lemma {:induction false} ChunkCountPrefix(blobs: seq<map<string, string>>, split: string -> seq<string>, j: nat)
    requires j < |blobs|
    ensures ChunkCount(blobs[..j], split) + |split(Get(blobs[j], "content"))| <= ChunkCount(blobs, split)
    decreases |blobs|
  {
    var n := |blobs| - 1;
    if j < n {
      assert blobs[..n][..j] == blobs[..j];
      assert blobs[..n][j] == blobs[j];
      ChunkCountPrefix(blobs[..n], split, j);
    } else {
      assert blobs[..j] == blobs[..n];
    }
  }

  /** `b_to_docs`: the nested loop over readings and their chunks. */
  method BToDocs(blobs: seq<map<string, string>>, split: string -> seq<string>) returns (docs: seq<Chunk>)
    ensures docs == FlatChunks(blobs, split)
  {
    docs := [];
    for j := 0 to |blobs|
      invariant docs == FlatChunks(blobs[..j], split)
    {
      var b := blobs[j];
      var pieces := split(Get(b, "content"));
      for i := 0 to |pieces|
        invariant docs == FlatChunks(blobs[..j], split) + ChunksOf(b, split)[..i]
      {
        assert ChunksOf(b, split)[..i + 1] == ChunksOf(b, split)[..i] + [Chunk(pieces[i], Get(b, "title"), Get(b, "author"))];
        docs := docs + [Chunk(pieces[i], Get(b, "title"), Get(b, "author"))];
      }
      assert ChunksOf(b, split)[..|pieces|] == ChunksOf(b, split);
      assert blobs[..j + 1][..j] == blobs[..j];
    }
    assert blobs[..|blobs|] == blobs;
  }

  // ---------------------------------------------------------------- the annotation stage's text

  const ObjectiveSeparator := " | "
  const NoExternalContext := "No external context."
  const NoObjectives := "(none provided)"
  const ExcerptPreview: nat := 700

  /** The retrieval query: the keywords (none counts as empty), one space, the objectives joined by " | ". */
  function Query(keywords: Option<string>, objectives: seq<string>): string {
    (if keywords.None? then "" else keywords.value) + " " + Join(ObjectiveSeparator, objectives)
  }

  /**
   * The query's words are the keywords' words followed by the objectives' words: the space keeps
   * the last keyword and the first objective apart, and the separators add no words of their own
   * beyond the "|" marks.
   */
  lemma QueryWords(keywords: Option<string>, objectives: seq<string>)
    ensures var kw := if keywords.None? then "" else keywords.value;
      && Words(Query(keywords, objectives)) == Words(kw) + Words(Join(ObjectiveSeparator, objectives))
      && |Query(keywords, objectives)| == |kw| + 1 + |Join(ObjectiveSeparator, objectives)|
      && Query(keywords, objectives)[|kw|] == ' '
  {
    var kw := if keywords.None? then "" else keywords.value;
    assert IsSpace(' ');
    assert Query(keywords, objectives) == kw + [' '] + Join(ObjectiveSeparator, objectives);
    WordsAcrossSpace(kw, ' ', Join(ObjectiveSeparator, objectives));
  }

  /**
   * The objectives can be read back from the query's tail, provided none contains the separator
   * and none but the last ends in a character of it.
   */
  lemma QueryObjectivesRecoverable(objectives: seq<string>)
    requires objectives != []
    requires forall k :: 0 <= k < |objectives| ==> !Contains(objectives[k], ObjectiveSeparator)
    requires forall k :: 0 <= k < |objectives| - 1 ==>
      objectives[k] != [] && objectives[k][|objectives[k]| - 1] !in ObjectiveSeparator
    ensures SplitOn(Join(ObjectiveSeparator, objectives), ObjectiveSeparator) == objectives
  {
    SplitOnJoinInverse(ObjectiveSeparator, objectives);
  }

  /** One retrieved chunk as the context shows it. */
  function Excerpt(c: Chunk): string {
    "Title: " + c.title + "\nSource: " + c.author + "\nExcerpt: " + Take(c.content, ExcerptPreview) + "..."
  }

  function Excerpts(docs: seq<Chunk>): (ps: seq<string>)
    ensures |ps| == |docs| && forall i :: 0 <= i < |docs| ==> ps[i] == Excerpt(docs[i])
  {
    seq(|docs|, i requires 0 <= i < |docs| => Excerpt(docs[i]))
  }

  /** `ctx`: the joined excerpts, or the no-context sentinel when the join is empty. */
  function ContextText(docs: seq<Chunk>): string {
    var joined := Join(StageText.Separator, Excerpts(docs));
    if joined == "" then NoExternalContext else joined
  }

  /**
   * The sentinel appears exactly when nothing was retrieved; otherwise the context splits back
   * into one excerpt per retrieved chunk, in retrieval order, unless a chunk holds the separator.
   */
  lemma ContextTextCases(docs: seq<Chunk>)
    ensures ContextText(docs) == NoExternalContext <==> docs == []
    ensures docs != [] && (forall i :: 0 <= i < |docs| ==> !Contains(Excerpt(docs[i]), StageText.Separator)) ==>
      SplitOn(ContextText(docs), StageText.Separator) == Excerpts(docs)
  {
    if docs != [] {
      var ps := Excerpts(docs);
      JoinStartsWithFirst(StageText.Separator, ps);
      var e := Excerpt(docs[0]);
      assert e[0] == 'T';
      var joined := Join(StageText.Separator, ps);
      assert joined[0] == 'T';
      assert NoExternalContext[0] == 'N';
      if forall i :: 0 <= i < |docs| ==> !Contains(Excerpt(docs[i]), StageText.Separator) {
        forall k | 0 <= k < |ps| - 1 ensures CleanBefore(ps[k], StageText.Separator) {
          var p := Excerpt(docs[k]);
          assert p[|p| - 1] == '.';
        }
        SplitOnJoinInverse(StageText.Separator, ps);
      }
    }
  }

  /** The objectives as a bulleted list, one "- " line each (the quality stage uses it as is). */
  function ObjectiveLines(objectives: seq<string>): string {
    Join("\n", seq(|objectives|, i requires 0 <= i < |objectives| => "- " + objectives[i]))
  }

  /** `lo_block`: the bulleted list, or the sentinel when the list is empty. */
  function ObjectivesBlock(objectives: seq<string>): string {
    var lines := ObjectiveLines(objectives);
    if lines == "" then NoObjectives else lines
  }

  /** The sentinel stands exactly for "no objectives"; otherwise the block is the bulleted list. */
  lemma ObjectivesBlockCases(objectives: seq<string>)
    ensures ObjectivesBlock(objectives) == NoObjectives <==> objectives == []
    ensures objectives != [] ==> ObjectivesBlock(objectives) == ObjectiveLines(objectives)
    ensures objectives == [] ==> ObjectiveLines(objectives) == ""
  {
    if objectives != [] {
      var bullets := seq(|objectives|, i requires 0 <= i < |objectives| => "- " + objectives[i]);
      JoinStartsWithFirst("\n", bullets);
      assert bullets[0][0] == '-';
      assert ObjectiveLines(objectives)[0] == '-';
      assert NoObjectives[0] == '(';
    }
  }
}
