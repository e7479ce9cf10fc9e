# Inkspire core, modelled in Dafny

Inkspire generates Reading Apprenticeship (RA) questions and teacher prompts for a reading. It runs
three pipeline stages in order: an extractor, a scaffold stage and a quality check. Each stage asks a
language model for text.

This project models the deterministic parts beneath those calls and proves what they promise:

- **The course library** (`SimpleCourseLibrary`, in both the backend and the RAG workflow). Courses
  map to ordered document lists. Every change is written through to a per-course record on disk.
  Loading prefers the disk record. Search ranks documents by lexical overlap and keeps the top k.
  - `CourseLibrary.Library` is a class with an in-memory field and a disk field.
  - Each method is specified by a pure function on the store's view (`AddDoc`, `AddChunks`, `Load`,
    `Search`), and the lemmas are about those functions.
- **The stage text logic**:
  - the backend's file step and working input;
  - the "relevant context" block with its separator, preview truncation and sentinels;
  - the rule that decides whether the context section is included;
  - the two variants of the questions/prompts split on `"Prompts:"`.
- **The pipelines as a fold.** A pipeline state is a map from field to value (`Pipeline`). A stage
  returns an update containing exactly the fields it owns. `Run` folds the stages in order, merging
  each update before the next stage starts. Four workflows are modelled as fixed stage lists, and
  each has a lemma stating what the run writes to its output fields:
  - `BasicWorkflow`
  - `RagWorkflow`
  - `BackendWorkflow`, including `process_uploaded_file`
  - `ReadingWorkflow`, the two-reading annotation workflow
- **The Reading A / Reading B helpers** (`Readings`):
  - extension dispatch and title defaulting;
  - the folder loop with its sorted order and skipped files;
  - the objectives file;
  - flattening readings into chunks that keep their metadata;
  - the retrieval query, the context block and the objectives block.
- **Perusall export handling** (`PerusallExport`):
  - shaving the raw file down to its JSON span;
  - validating `pages`;
  - the priority-ordered text extraction over a `Json` datatype;
  - the page loop, in which every page lands in exactly one of three counters.
- **The Perusall text cleaner** (`PerusallClean`): the regex scan for `'str': '…'` values, the filter,
  the whitespace collapse, and the paragraph breaks after `". X"`.

The language model is a total function `gen: Prompt -> string`. A `Prompt` value records which state
fields the prompt embeds; its wording is not modelled. Loaders, splitters, the vector store, `str()` of
JSON values, URL expiry and page fetching are all function parameters, so every lemma holds for any
behaviour of them.

Text follows the source's Python semantics:

- `Text.IsSpace` is exactly the set of characters for which `str.isspace()` holds.
- `Strip`, `Words` (`split()`), `SplitOn` (`split(sep)`), `Find`, `RFindChar`, `ReplaceAll`
  (`replace`) and `SplitLines` (`splitlines()`) follow their Python definitions.
- `PyPrefix` is slicing with a possibly negative bound.
- The stable descending sort is characterised by `Rank`: each scored document is tagged with its
  collection position, and the documents are ordered by score descending, then position ascending.

Two behaviours of the code are worth knowing, and the model keeps both:

- `load_course_library` reads the disk record whenever one exists, even if the course is already in
  memory.
  - `CourseLibrary.Load` does the same and prefers the record.
  - `CourseLibrary.LoadMirrored` shows that memory-first loading would give the same result whenever
    memory and disk are mirrored.
- `add_course_document` does not load the disk record first. A process that has not loaded a course
  rewrites its record with only the documents added in this process.

The `SharedInput` of both the RAG workflow and the backend defaults the course id to `"default"`
(`RagWorkflow.InitialState`, `BackendWorkflow.InitialState`). `process_uploaded_file`, the backend's
entry point, always sets a course.

## Model

| member | source | states |
|---|---|---|
| CourseLibrary.AddDoc | backend/ra_workflow.py:83-99 | the new document has id = old length + 1 and the given fields; it is appended after the old collection; the course's disk record becomes the whole new collection; every other course is unchanged |
| CourseLibrary.AddDocKeepsIds | workflow_RAG.py:43-59 | if a collection's ids are 1..n in order, they are 1..n+1 after an add, so n adds on a fresh course give ids 1..n in call order |
| CourseLibrary.ChunkDocs | backend/ra_workflow.py:101-110 | one document per chunk, in chunk order, each built by ChunkDoc for its index |
| CourseLibrary.AddChunksAppends | backend/ra_workflow.py:101-110 | n chunks grow the collection by exactly n; the old documents stay in front; chunk i becomes the document with id old+i+1, title "{title} - Part {i+1}", author "Uploaded Content" and type "uploaded_file" |
| CourseLibrary.AddChunksDocs | backend/ra_workflow.py:101-110 | the collection after adding chunks is the old collection followed by the chunk documents |
| CourseLibrary.ChunkDocsSnoc | backend/ra_workflow.py:103-110 | adding one more chunk appends exactly that chunk's document |
| CourseLibrary.AddChunksLast | backend/ra_workflow.py:103-110 | the loop's last add appends the last chunk's document to what the earlier chunks produced |
| CourseLibrary.AddChunksFrame | backend/ra_workflow.py:101-116 | other courses' collections and disk records are untouched; after a non-empty list the course's disk record equals its collection; an empty list changes nothing |
| CourseLibrary.ChunkTitlesDistinct | backend/ra_workflow.py:106 | two different chunk indices give different titles |
| CourseLibrary.Load | backend/ra_workflow.py:118-124 | no disk record: the in-memory collection (empty for an unknown course) and no change; an unreadable record: an error and no change; a readable record: that record, which is also copied into memory |
| CourseLibrary.AddDocMirrored | backend/ra_workflow.py:97-98 | adding preserves "every course both in memory and on disk has a record equal to its list in memory" |
| CourseLibrary.LoadMirrored | workflow_RAG.py:67-73 | for a mirrored store and a course already in memory, disk-first loading returns the memory collection and changes nothing |
| CourseLibrary.LoadAfterAdd | backend/ra_workflow.py:97-124 | loading right after an add returns the old collection plus the new document |
| CourseLibrary.DocWords | backend/ra_workflow.py:133-134 | the words of the lowercased "title content" text are the title's words followed by the content's |
| CourseLibrary.OverlapPositive | backend/ra_workflow.py:129-137 | a document scores above zero exactly when some lowercased query word is a word of its title or content |
| CourseLibrary.ScoreAll | backend/ra_workflow.py:131-138 | each entry is a positive-score document, tagged with its position and its score, and the entries are in collection order |
| CourseLibrary.ScoreAllComplete | backend/ra_workflow.py:137-138 | every document with a positive score appears in the scored list |
| CourseLibrary.Insert | backend/ra_workflow.py:140 | inserting one entry gives a list of the old entries plus it, as a multiset |
| CourseLibrary.Rank | backend/ra_workflow.py:140 | the sort is a permutation of the scored list |
| CourseLibrary.InsertRanked | backend/ra_workflow.py:140 | inserting into a list ordered by (score descending, position ascending) keeps it ordered |
| CourseLibrary.RankRanked | backend/ra_workflow.py:140 | the sorted list has non-increasing scores, and ties are in collection order (a stable descending sort) |
| CourseLibrary.RankAvoids | backend/ra_workflow.py:140 | sorting introduces no position that was not in the list |
| CourseLibrary.RankedTail | backend/ra_workflow.py:140 | a suffix of an ordered list is ordered |
| CourseLibrary.RankedUnique | backend/ra_workflow.py:140 | two ordered lists with the same elements are equal, so the stable sort's result is determined by its input |
| CourseLibrary.DocsOf | backend/ra_workflow.py:141 | the result lists the ranked entries' documents in ranked order |
| CourseLibrary.ScoreAllDistinct | backend/ra_workflow.py:131-138 | the scored entries carry pairwise different positions |
| CourseLibrary.TopHitsSound | backend/ra_workflow.py:131-141 | the top hits are ordered; each hit is the document at its position with its own positive score |
| CourseLibrary.RankSource | backend/ra_workflow.py:140 | every entry of the sorted list comes from the input list |
| CourseLibrary.TopHitsComplete | backend/ra_workflow.py:140-141 | a positive-score document left out of the top hits is preceded by every hit, and the scored list was longer than max_results |
| CourseLibrary.RankIndex | backend/ra_workflow.py:140 | every input entry occurs in the sorted list |
| CourseLibrary.SearchDocsSound | backend/ra_workflow.py:126-141 | every result is a collection document with positive overlap, and overlaps are non-increasing along the result |
| CourseLibrary.SearchDocsBound | backend/ra_workflow.py:141 | at most max_results results and at most as many as the collection holds |
| CourseLibrary.ScoreAllLength | backend/ra_workflow.py:131-138 | scoring never yields more entries than documents |
| CourseLibrary.SearchNothingShared | backend/ra_workflow.py:137 | when no document shares a word with the query, the search returns nothing |
| CourseLibrary.ScoreAllNone | backend/ra_workflow.py:137 | when every score is zero, the scored list is empty |
| CourseLibrary.ScoreDocuments | backend/ra_workflow.py:131-138 | the scoring loop produces exactly ScoreAll of the documents under the overlap score |
| CourseLibrary.Library.constructor | backend/ra_workflow.py:78-81 | a new library has empty memory and the disk records it is given |
| CourseLibrary.Library.AddCourseDocument | backend/ra_workflow.py:83-99 | the new view and returned document are AddDoc of the old view |
| CourseLibrary.Library.AddDocumentChunks | backend/ra_workflow.py:101-110 | the chunk loop leaves the view equal to AddChunks of the old view, under the given title or "Uploaded Document" when none is given |
| CourseLibrary.Library.LoadCourseLibrary | backend/ra_workflow.py:118-124 | result and new view are Load of the old view |
| CourseLibrary.Library.SearchDocuments | backend/ra_workflow.py:126-141 | result and new view are Search of the old view: load, score, stable sort, cut to max_results |
| StageText.Pieces | backend/ra_workflow.py:189-191 | one context piece per hit, in hit order |
| StageText.PieceStart | backend/ra_workflow.py:191 | every piece starts with "Title: " |
| StageText.ContextBlockOutcomes | backend/ra_workflow.py:184-200 | the block is the no-materials sentinel exactly when the search found nothing, the error sentinel exactly when it failed, and never empty |
| StageText.PieceCleanBefore | backend/ra_workflow.py:191-193 | a piece without the separator has no separator occurrence straddling its end either |
| StageText.ContextBlockSplits | backend/ra_workflow.py:193 | a block built from hits splits back on "\n\n---\n\n" into exactly the pieces, unless a piece contains the separator |
| StageText.PiecePreview | backend/ra_workflow.py:191 | a piece shows the title, the author and at most the first preview characters of the content (all of it when short enough), then "..." |
| StageText.ContextSection | backend/ra_workflow.py:212-214 | the section is empty exactly when the context is missing, empty or the no-materials sentinel |
| StageText.GatingFollowsSearch | workflow_RAG.py:132-134 | the section is included exactly when the search did not come back empty; on a retrieval error, the error sentinel is included |
| StageText.JoinSpaceWords | backend/ra_workflow.py:163 | the words of the space-joined chunks are the chunks' words in order |
| StageText.WorkingInputWords | backend/ra_workflow.py:163 | the working input holds the words of the first min(3, n) chunks; no chunks give "" |
| StageText.Index | backend/ra_workflow.py:254 | indexing a split result succeeds exactly for an index in range, and yields that part |
| StageText.TrySplitDefined | workflow_basic.py:49-52 | the split without fallback succeeds exactly when "Prompts:" occurs |
| StageText.GuardedSplitNeverFails | backend/ra_workflow.py:251-263 | with "Prompts:" the guarded split is the parsed split; without it, the raw output and "Prompts not properly formatted."; the "Error parsing prompts." branch is unreachable |
| StageText.SplitVariantsAgree | workflow_basic.py:49-54 | both variants agree when "Prompts:" occurs; without it the basic variant gives the raw output and "", the guarded one the raw output and its sentinel |
| StageText.ParsedPromptsLackMarker | workflow_basic.py:51 | the parsed prompts never contain "Prompts:", so text after a second occurrence is dropped |
| StageText.MarkersBorderFree | workflow_basic.py:50-51 | neither marker overlaps itself |
| StageText.HeadLacksPrompts | workflow_basic.py:50 | "Questions:" followed by text without "Prompts:" contains no "Prompts:" |
| StageText.SplitRoundTrip | workflow_basic.py:50-51 | an output formatted as "Questions:" q "Prompts:" p splits into strip(q) and strip(p) in both variants |
| Readings.Name | workflow.py:55 | `path.name`: the last component that is neither empty nor "."; it contains no "/", is never ".", and is no longer than the path |
| Readings.Trimmed | workflow.py:55 | the path with the trailing "/" characters and "/." components pathlib ignores removed: a prefix of the path, followed only by "/" and "." characters, and not itself ending in "/" or "/." or equal to "." |
| Readings.LastComponent | workflow.py:55 | the part after the last "/": a "/"-free suffix of the path, preceded by "/" unless it is the whole path |
| Readings.NameInPath | workflow.py:55 | the name occurs in the path, followed only by "/" and "." characters |
| Readings.NameIgnoresTrailing | workflow.py:55 | appending "/" or "/." to a path does not change its name |
| Readings.Suffix | workflow.py:55 | a suffix is empty or is a "." followed by at least one character and no further "." |
| Readings.StemSuffix | workflow.py:55-70 | stem and suffix together give the name back; the stem is empty only for an empty name |
| Readings.NameOfChild | workflow.py:80-83 | the name of folder + "/" + name is that name, for any name a listing yields (non-empty, not ".", "/"-free) |
| Readings.LoadFileTextDispatch | workflow.py:54-65 | a path is refused as unsupported exactly when its lowercased suffix is not .pdf/.txt/.docx/.doc, and the error names that suffix |
| Readings.LoadByExtensionDispatch | workflow.py:56-65 | the loader chosen for an extension refuses it exactly when it is not one of the four |
| Readings.NewlineJoinSplits | workflow.py:58 | pages without newlines joined by "\n" split back into the pages |
| Readings.LoadFileTextPages | workflow.py:56-63 | a PDF or Word file whose loader succeeds gives its pages joined by newlines, recoverable by splitting on "\n" |
| Readings.ReadingTitle | workflow.py:67-73 | the record exists exactly when the file loads; it holds the file's text and the author; the title is the given one unless it is None or "", and otherwise the path's stem |
| Readings.NameLeTotal | workflow.py:80 | name order is total |
| Readings.InsertByName | workflow.py:80 | insertion keeps the entries as a multiset |
| Readings.InsertByNameSorted | workflow.py:80 | insertion keeps name order |
| Readings.SortByName | workflow.py:80 | the sort is a permutation of the folder's entries |
| Readings.SortByNameSorted | workflow.py:80 | the sorted entries are in name order and are a permutation of the entries |
| Readings.AttemptMeaning | workflow.py:81-86 | an entry contributes exactly when it is a file with a supported suffix that loads, and then its record |
| Readings.CollectSources | workflow.py:80-86 | every loaded reading comes from some entry |
| Readings.CollectConcat | workflow.py:80-86 | the loop over two runs of entries appends their readings in order |
| Readings.CollectKeepsAll | workflow.py:80-86 | when every entry loads, the readings are the entries' records in order |
| Readings.CollectBound | workflow.py:80-86 | no more readings than entries |
| Readings.EntryReadingShape | workflow.py:83 | a folder entry's record is titled by the file's stem and holds its text and the author |
| Readings.FolderReadingsCases | workflow.py:75-87 | a missing or non-directory folder gives no readings; otherwise at most one per entry |
| Readings.LoadReadingBFolder | workflow.py:75-87 | the folder loop returns exactly FolderReadings |
| Readings.ObjectivesAreLines | workflow.py:89-97 | every objective is non-empty and stripped; there is one per non-blank line, each a stripped line of the file; and they keep line order: cutting the lines anywhere, the objectives are those of the first part followed by those of the second |
| Readings.StrippedNonEmptyCuts | workflow.py:94-97 | the kept lines of the whole file are those before any cut followed by those after it |
| Readings.ChunksOf | workflow.py:119-121 | one chunk per piece of the splitter's output |
| Readings.FlatChunksLength | workflow.py:116-122 | the flattened list holds as many chunks as all readings' pieces together |
| Readings.FlatChunksAt | workflow.py:116-122 | piece i of reading j sits after all earlier readings' pieces and carries reading j's title and author |
| Readings.ChunkCountPrefix | workflow.py:116-122 | reading j's chunks fit within the flattened list |
| Readings.BToDocs | workflow.py:116-122 | the loop produces exactly FlatChunks, blob by blob and chunk by chunk |
| Readings.QueryWords | workflow.py:151-152 | the query's words are the keywords' words then the objectives' words, with exactly one space between the two parts |
| Readings.QueryObjectivesRecoverable | workflow.py:151 | the objectives can be read back by splitting on " \| ", when none contains the separator |
| Readings.Excerpts | workflow.py:154-156 | one excerpt per retrieved chunk, in order |
| Readings.ContextTextCases | workflow.py:154-157 | the context is "No external context." exactly when nothing was retrieved; otherwise it splits back into the excerpts |
| Readings.ObjectivesBlockCases | workflow.py:159 | the block is "(none provided)" exactly when there are no objectives; otherwise it is the bulleted list |
| Upload.ProcessFileDispatch | backend/ra_workflow.py:48-59 | a file is refused exactly when its suffix, lowercased, is not .pdf, .docx or .txt, and the error names the suffix as written |
| Upload.ProcessByExtensionDispatch | backend/ra_workflow.py:52-69 | each supported extension uses its own loader and returns the splitter's chunks of what it loaded |
| Text.LineBreakIsSpace | workflow.py:95 | every line-break character is whitespace |
| Text.Lower | backend/ra_workflow.py:129 | lowercasing keeps the length |
| Text.LowerAt | backend/ra_workflow.py:133 | lowercasing works character by character |
| Text.LowerConcat | backend/ra_workflow.py:133 | lowercasing distributes over concatenation |
| Text.Take | backend/ra_workflow.py:178 | a [:n] slice is the prefix of length min(n, len) |
| Text.PyPrefix | backend/ra_workflow.py:141 | a [:k] slice is a prefix: of length min(k, len) for k >= 0, and len+k (at least 0) for negative k |
| Text.JoinStartsWithFirst | backend/ra_workflow.py:193 | a join starts with its first part |
| Text.JoinSnoc | workflow.py:154 | joining one more part appends the separator and that part |
| Text.JoinLength | workflow.py:154 | a join's length is the parts' total length plus one separator between each pair |
| Text.FindFrom | perusall/extract_article.py:48 | the result is the first occurrence at or after the start, or -1 when there is none |
| Text.Find | perusall/extract_article.py:48 | -1 exactly when the pattern is absent; otherwise its first occurrence |
| Text.RFindChar | perusall/extract_article.py:58 | -1 exactly when the character is absent; otherwise its last position |
| Text.SubstringAvoids | backend/ra_workflow.py:253 | a slice of a text without the pattern lacks it too |
| Text.OccursShift | backend/ra_workflow.py:253 | an occurrence in a slice is an occurrence in the whole |
| Text.OccursDrop | backend/ra_workflow.py:253 | an occurrence past a cut is an occurrence in the remainder |
| Text.SplitOn | workflow_basic.py:50 | str.split(sep) gives at least one part |
| Text.SplitOnJoin | workflow_basic.py:50 | joining the parts with the separator gives the text back |
| Text.SplitOnPiecesAvoid | workflow_basic.py:50-51 | no part contains the separator |
| Text.SplitOnCount | workflow_basic.py:51 | there is more than one part exactly when the separator occurs |
| Text.SplitOnFirst | workflow_basic.py:50 | the first part is the text up to the first occurrence, or the whole text when there is none |
| Text.UniqueLastBorderFree | workflow_basic.py:50 | a pattern whose last character occurs only at its end cannot overlap itself |
| Text.FindAtJoin | workflow_basic.py:50 | in x + pat + y with x clean, the first occurrence is at the end of x |
| Text.SplitOnAtJoin | workflow_basic.py:50 | x + pat + y with x clean splits into x followed by y's parts |
| Text.SplitOnJoinInverse | workflow.py:154 | splitting a join recovers the parts, when none holds the separator |
| Text.ReplaceAllLeading | workflow_basic.py:50 | removing "Questions:" from "Questions:" + q gives q when q lacks it |
| Text.ReplaceAllIsSplitJoin | workflow_basic.py:50 | replace(pat, rep) is split on pat and joined with rep |
| Text.ReplaceAllAbsent | workflow_basic.py:50 | replacing an absent pattern changes nothing |
| Text.FindStep | workflow_basic.py:50 | without an occurrence at the front, the first occurrence is one further in the tail |
| Text.ReplaceAllStep | workflow_basic.py:50 | without an occurrence at the front, the first character is kept |
| Text.ReplaceAllHead | workflow_basic.py:50 | an occurrence at the front is replaced and the scan resumes after it |
| Text.LStrip | perusall/cleantext.py:19 | the result is a suffix of the input that starts with a non-space, or is empty |
| Text.LStripCut | perusall/cleantext.py:19 | only whitespace is cut from the front |
| Text.RStrip | perusall/cleantext.py:19 | the result is a prefix that ends with a non-space, or is empty |
| Text.RStripCut | perusall/cleantext.py:19 | only whitespace is cut from the end |
| Text.Strip | perusall/cleantext.py:19 | the result has no whitespace at either end |
| Text.StripShape | perusall/cleantext.py:19 | the result is a slice of the input with only whitespace around it |
| Text.StripStripped | workflow.py:97 | an already stripped text is unchanged |
| Text.StripAround | workflow_basic.py:50-51 | stripping whitespace-wrapped stripped text returns that text |
| Text.LStripSpaces | workflow_basic.py:50-51 | lstrip removes exactly a leading whitespace run |
| Text.RStripSpaces | workflow_basic.py:50-51 | rstrip removes exactly a trailing whitespace run |
| Text.StripAvoids | workflow_basic.py:51 | stripping cannot create an occurrence of a pattern |
| Text.WordLen | backend/ra_workflow.py:129 | the first word is a whitespace-free prefix ended by whitespace or the end of the text |
| Text.Words | backend/ra_workflow.py:129 | split() yields non-empty words without whitespace |
| Text.WordLenBeforeSpace | backend/ra_workflow.py:133-134 | a whitespace character ends the first word |
| Text.WordsAcrossSpace | backend/ra_workflow.py:133-134 | split() across a whitespace character is the words of each side, concatenated |
| Text.LineLen | workflow.py:95 | the first line has no line break and ends at one or at the end of the text |
| Text.SplitLines | workflow.py:95 | no line contains a line break |
| Text.StrippedNonEmpty | workflow.py:97 | the kept pieces are non-empty and stripped, and no more than the inputs |
| Text.StrippedNonEmptySources | workflow.py:97 | each kept piece is the stripped form of some input |
| Text.StrippedNonEmptyLength | perusall/cleantext.py:17-21 | exactly the blank inputs are dropped |
| Text.StrippedNonEmptyKeeps | perusall/cleantext.py:17-21 | inputs that are already non-empty and stripped are all kept as they are |
| Text.StrippedNonEmptyConcat | perusall/cleantext.py:17-21 | filtering keeps input order: the kept pieces of xs + ys are those of xs followed by those of ys |
| Text.NatToString | perusall/extract_article.py:238 | a page number prints as a non-empty string of digits |
| Text.NatToStringRoundTrip | perusall/extract_article.py:238 | parsing the printed number gives it back |
| Text.NatToStringInjective | perusall/extract_article.py:238 | different page numbers print differently |
| Pipeline.RunKeepsFields | workflow_RAG.py:201-216 | running the stages never removes a field |
| Pipeline.RunLeavesUnowned | workflow_RAG.py:201-216 | a field no stage owns keeps its initial value |
| Pipeline.RunConcat | workflow_RAG.py:210-213 | running two stage lists in sequence is running their concatenation |
| Pipeline.RunThree | workflow_RAG.py:210-213 | a three-stage run merges each stage's update before the next stage reads the state |
| Pipeline.OwnedMembers | workflow_RAG.py:124-198 | a field is owned exactly when some stage owns it |
| Pipeline.LastWriterWins | workflow_RAG.py:201-216 | a field's final value is what the last stage owning it wrote |
| Pipeline.RunDeterminedByInputs | workflow_RAG.py:201-216 | when every stage reads only initial or earlier-produced fields, two runs agreeing on the initial fields agree on every produced field and on the resulting library |
| BasicWorkflow.StagesWellFormed | workflow_basic.py:27-77 | each stage writes exactly its own fields (extracted_info; questions and prompts; evaluation); the owners are disjoint; each reads only the input or earlier outputs |
| BasicWorkflow.RunOutputs | workflow_basic.py:79-94 | the run's final state holds the input, the extraction, the split questions and prompts, and the evaluation of those, and no other field |
| BasicWorkflow.RunFollowsFormat | workflow_basic.py:48-58 | a well-formatted model answer yields strip(q) and strip(p) as questions and prompts |
| BasicWorkflow.RunWithoutMarker | workflow_basic.py:52-54 | an answer without "Prompts:" yields the raw answer as questions and "" as prompts |
| RagWorkflow.StagesWellFormed | workflow_RAG.py:124-213 | stages write extracted_info and relevant_context; questions and prompts; evaluation; the owners are disjoint; each reads only the input, the course id or earlier outputs |
| RagWorkflow.ExtractorWellFormed | workflow_RAG.py:124-127 | the extractor writes only its two fields and reads only input and course id |
| RagWorkflow.RunOutputs | workflow_RAG.py:100-216 | the final state's fields, with the course defaulting to "default": the extraction, the context block of a top-3 search on it with a 500-character preview, the guarded split of the scaffold answer, and the evaluation; the library is the one after the search's load |
| RagWorkflow.ContextSectionFollowsSearch | workflow_RAG.py:132-134 | the scaffold prompt gets a context section exactly when the search did not come back empty |
| RagWorkflow.ContextDocumentsRelevant | workflow_RAG.py:75-93 | the context documents are at most 3 and each shares a word with the extraction |
| ReadingWorkflow.StagesWellFormed | workflow.py:139-203 | A writes a_keywords and a_key_sentences, B writes rag_context and annotations, C writes evaluation; the owners are disjoint; each reads only the inputs or earlier outputs |
| ReadingWorkflow.RunOutputs | workflow.py:125-203 | the final state's fields: the keywords and key sentences of Reading A, the context built from the store grown with Reading B's chunks, the annotations and the review; the store grows by exactly Reading B's chunks |
| ReadingWorkflow.ExtractOn | workflow.py:127-139 | stage A writes the model's keywords and key sentences for Reading A's title and content and leaves the inputs alone |
| ReadingWorkflow.GenerateOn | workflow.py:146-180 | stage B adds Reading B's chunks to the store, retrieves with the query, and writes the context and annotations |
| ReadingWorkflow.RunStages | workflow.py:194-203 | the run is A, then B on A's merged state, then C on B's |
| ReadingWorkflow.ContextFromStore | workflow.py:148-157 | for a retriever that returns at most k chunks from the store, the context is the sentinel exactly when nothing came back, has at most 8 excerpts, and each excerpt comes from the earlier store or from a Reading B blob |
| ReadingWorkflow.FlatChunksSources | workflow.py:116-122 | every flattened chunk is a piece of some reading and carries its title and author |
| BackendWorkflow.ExtractorRun | backend/ra_workflow.py:202-207 | the extractor writes exactly extracted_info, relevant_context, document_chunks and input |
| BackendWorkflow.StagesWellFormed | backend/ra_workflow.py:149-319 | each stage writes exactly its own fields; the owners are disjoint; each reads only input, course id, file path or earlier outputs |
| BackendWorkflow.FileStepEffects | backend/ra_workflow.py:153-168 | for an existing, processable file: the chunks are stored under "Uploaded: {name}", appended to the course and the working input holds the words of the first min(3, n) chunks; otherwise the input and library are unchanged and no chunks are reported |
| BackendWorkflow.ExtractorOutputs | backend/ra_workflow.py:149-207 | the prompt sees at most the first 2000 characters of the working input; the context block comes from a top-5 search on the extraction with a 300-character preview; the four written fields are as computed |
| BackendWorkflow.RunOutputs | backend/ra_workflow.py:149-319 | the final state keeps the extractor's fields, the course and the path, and holds the guarded split of the scaffold answer to a prompt embedding the extraction and the context section; the library is the one the extractor left |
| BackendWorkflow.RunAfterExtractor | backend/ra_workflow.py:210-304 | after any first stage that writes exactly the extractor's fields, the scaffold and quality stages keep those fields and write the guarded split of the answer to a prompt embedding its extraction and context section |
| BackendWorkflow.UploadCourseChoice | backend/ra_workflow.py:356-357 | the chosen course is the given non-empty one, or "upload_" followed by the file's stem; never empty |
| BackendWorkflow.UploadCourseTrailing | backend/ra_workflow.py:356-357 | a trailing "/" or "/." does not change the course an upload goes to: it is "upload_" followed by the stem of the last real component |
| BackendWorkflow.SeedingTargetsDemo | backend/ra_workflow.py:324-351 | seeding adds the framework overview to "reading-apprenticeship-demo" and changes no other course |
| BackendWorkflow.UploadRunFields | backend/ra_workflow.py:353-379 | the run keeps the chosen course and the path; when the file is missing or cannot be processed, the input is the custom input or the default instruction and no chunks are reported |
| BackendWorkflow.UploadSkips | backend/ra_workflow.py:153-171 | when the upload is missing, empty or cannot be processed, the run keeps the instruction as input and reports no chunks |
| BackendWorkflow.InitialRun | backend/ra_workflow.py:28-37 | from a `SharedInput`, the run keeps the course, "default" when none is given, and the file path; its library is the search's load of the course after the file step; without a file the input is kept and no chunks are reported |
| BackendWorkflow.ExtractorSkips | backend/ra_workflow.py:153-168 | a missing, empty or unprocessable file leaves the input as given and reports no chunks |
| BackendWorkflow.RunStoresUpload | backend/ra_workflow.py:153-162 | after the run, the course's collection is the old one plus the uploaded chunks under "Uploaded: {name}" |
| BackendWorkflow.ExtractorStoresUpload | backend/ra_workflow.py:153-162 | the extractor leaves the course's collection as the old one plus the uploaded chunks |
| BackendWorkflow.FileStepAdds | backend/ra_workflow.py:155-163 | a non-empty path to an existing file that processes has its chunks added to the course under "Uploaded: {name}" |
| BackendWorkflow.LoadAfterAddChunks | backend/ra_workflow.py:101-124 | loading a course right after a non-empty list of chunks was added to it leaves the course's collection as the add left it |
| BackendWorkflow.RunLibrary | backend/ra_workflow.py:210-304 | only the extractor touches the library |
| BackendWorkflow.ExtractorLibrary | backend/ra_workflow.py:153-186 | the extractor's library is the file step's library after the search loads the course |
| BackendWorkflow.LoadKeepsWrittenCourse | backend/ra_workflow.py:112-124 | loading a course just written to disk leaves its collection as it was |
| PerusallExport.Str | perusall/extract_article.py:117 | str() of a string is the string itself |
| PerusallExport.TrimContent | perusall/extract_article.py:43-61 | the trimming steps compute Trimmed |
| PerusallExport.CutAtEnding | perusall/extract_article.py:55-61 | the ending loop computes UpToEnd |
| PerusallExport.TrimmedFails | perusall/extract_article.py:43-52 | trimming fails exactly when the stripped text has no "{", and then with "No valid JSON found in file" |
| PerusallExport.LocatedShape | perusall/extract_article.py:46-52 | the located content is the slice from the first "{" on, so it starts with "{" |
| PerusallExport.UpToEndShape | perusall/extract_article.py:55-61 | the cut content is a prefix of its input and still starts with "{" |
| PerusallExport.UpToEndChoice | perusall/extract_article.py:55-61 | content ending in neither bracket is cut after its last "}" when it has one, even if a "]" comes later; otherwise after its last "]"; with neither, it is unchanged |
| PerusallExport.Validate | perusall/extract_article.py:66-78 | accepted data is the object it returns |
| PerusallExport.LoadJsonFile | perusall/extract_article.py:36-81 | a missing file, a trimming failure, unparsable content and each failed check give their own error; otherwise the validated object |
| PerusallExport.ValidateAccepts | perusall/extract_article.py:66-76 | data is accepted exactly when it is an object whose "pages" is a non-empty list; anything else gives a validation error |
| PerusallExport.FirstField | perusall/extract_article.py:115-118 | the first-present-field loop contributes at most one piece |
| PerusallExport.FirstFieldPicks | perusall/extract_article.py:115-118 | the first present field in the priority list is the one contributed |
| PerusallExport.FirstFieldNone | perusall/extract_article.py:115-118 | an item with none of the fields contributes nothing |
| PerusallExport.TextPieces | perusall/extract_article.py:109-120 | a text list yields at most one piece per item |
| PerusallExport.DataPieces | perusall/extract_article.py:131-140 | a data list yields at most one piece per item |
| PerusallExport.ExtractText | perusall/extract_article.py:100-156 | the extracted text is stripped |
| PerusallExport.TextKeyDecides | perusall/extract_article.py:105-121 | when "text" is present it alone decides the result; a "text" that is neither string nor list gives "" |
| PerusallExport.ContentKeyDecides | perusall/extract_article.py:124-125 | without "text", a present "content" decides: its str(), stripped |
| PerusallExport.DataKeyDecides | perusall/extract_article.py:128-143 | without "text" and "content", a present "data" alone decides |
| PerusallExport.FallbackPicks | perusall/extract_article.py:147-154 | the first present fallback field is the one used |
| PerusallExport.FallbackDecides | perusall/extract_article.py:146-156 | without the three main keys, the result is the first present of textContent, body, html, plain, raw and items, stripped |
| PerusallExport.TextPiecesConcat | perusall/extract_article.py:110-120 | the text-list loop over two runs appends their pieces |
| PerusallExport.TextPiecesOfStrings | perusall/extract_article.py:111-112 | a list of strings contributes exactly those strings |
| PerusallExport.SilentItem | perusall/extract_article.py:113-118 | a dict with none of content/text/value/data contributes nothing |
| PerusallExport.FetchedText | perusall/extract_article.py:158-197 | the fetched text is stripped |
| PerusallExport.PageBlock | perusall/extract_article.py:223-241 | a page contributes at most one block |
| PerusallExport.BlocksOfSnoc | perusall/extract_article.py:219-241 | one more page appends at most its own block, labelled by its position when it has no number |
| PerusallExport.TallyAccounts | perusall/extract_article.py:219-241 | after n pages, successful + failed + expired = n, and the blocks are the successful pages' blocks in page order |
| PerusallExport.TalliedStops | perusall/extract_article.py:219-235 | once the loop has failed (a page that is not an object makes `page.get` raise), later pages change nothing |
| PerusallExport.TallyPages | perusall/extract_article.py:214-245 | the page loop computes Tallied over all pages |
| PerusallExport.ExtractDocument | perusall/extract_article.py:199-266 | the result is Extraction of the inputs; the file is written exactly when the extraction succeeded and an output path was given |
| PerusallExport.ExtractionErrors | perusall/extract_article.py:199-255 | a missing file, a file without "{", and badly shaped data each give a load error |
| PerusallExport.ExtractedOutcome | perusall/extract_article.py:254-258 | no successful page raises "No pages could be extracted"; otherwise the document starts with the header and the first block |
| PerusallClean.SkipSpaces | perusall/cleantext.py:13 | the \s* run ends at the first non-space |
| PerusallClean.QuoteFrom | perusall/cleantext.py:13 | the [^']* run ends at the first quote |
| PerusallClean.MatchAt | perusall/cleantext.py:13 | a match's group lies after the key, within the text |
| PerusallClean.Spans | perusall/cleantext.py:13-14 | the scan finds matches in order without overlap; each is a match at its start |
| PerusallClean.Captures | perusall/cleantext.py:14 | one capture per match |
| PerusallClean.MatchAtShape | perusall/cleantext.py:13 | a match is the key, whitespace, a quote, a quote-free run and a closing quote |
| PerusallClean.CapturesQuoted | perusall/cleantext.py:13-14 | each capture is the quote-free text between the quotes after "'str':" and whitespace |
| PerusallClean.BlankTestRedundant | perusall/cleantext.py:20 | after stripping, a non-empty piece is never one of the listed blanks, so that test changes nothing |
| PerusallClean.FilterPieces | perusall/cleantext.py:17-21 | the filter keeps the stripped non-blank captures in order |
| PerusallClean.CollapseFirst | perusall/cleantext.py:25 | the first character survives, or becomes the space for its run |
| PerusallClean.CollapseSingleSpaced | perusall/cleantext.py:25 | after collapsing no two whitespace characters are adjacent |
| PerusallClean.WordsOfSpaces | perusall/cleantext.py:25 | whitespace has no words |
| PerusallClean.WordsAfterSpaces | perusall/cleantext.py:25 | leading whitespace adds no words |
| PerusallClean.WordsBeforeSpaces | perusall/cleantext.py:25 | trailing whitespace adds no words |
| PerusallClean.CollapseWords | perusall/cleantext.py:25 | collapsing keeps the words |
| PerusallClean.CollapseRunWords | perusall/cleantext.py:25 | replacing a leading whitespace run by one space keeps the words |
| PerusallClean.CollapseCharWords | perusall/cleantext.py:25 | a kept leading character keeps the words |
| PerusallClean.WordsPrefix | perusall/cleantext.py:25 | a non-space character in front of two word-equal texts keeps them word-equal |
| PerusallClean.WordsGlue | perusall/cleantext.py:25 | a non-space character glued to two word-equal texts keeps them word-equal |
| PerusallClean.WordLenCons | perusall/cleantext.py:25 | a non-space character lengthens the first word by one |
| PerusallClean.Paragraphs | perusall/cleantext.py:28 | the rewrite never shortens the text and keeps its first character |
| PerusallClean.ParagraphsCloseGaps | perusall/cleantext.py:28 | afterwards no ". " is followed by a capital letter |
| PerusallClean.FirstNotGap | perusall/cleantext.py:28 | where there was no gap at the front, none appears |
| PerusallClean.ParagraphsIdentity | perusall/cleantext.py:28 | a text without a gap is unchanged |
| PerusallClean.Unbreak | perusall/cleantext.py:28 | undoing the breaks never lengthens the text |
| PerusallClean.FrontBreak | perusall/cleantext.py:28 | where the input had no gap and no break at the front, none appears there |
| PerusallClean.ParagraphsUndone | perusall/cleantext.py:28 | nothing but the inserted breaks changes: undoing them gives back any input that had no ".\n\nX" of its own |
| PerusallClean.BreakWords | perusall/cleantext.py:28 | two line breaks separate words just as the space did |
| PerusallClean.ParagraphsWords | perusall/cleantext.py:28 | the rewrite of a tail keeps the words of any prefix plus the tail |
| PerusallClean.ParagraphsKeepWords | perusall/cleantext.py:28 | the paragraph breaks keep the words |
| PerusallClean.SpacedShape | perusall/cleantext.py:24-25 | after join, collapse and strip the text has no whitespace at either end, no adjacent whitespace, and the words of the joined pieces |
| PerusallClean.StripSingleSpaced | perusall/cleantext.py:25 | stripping keeps a text single-spaced |
| PerusallClean.SliceSingleSpaced | perusall/cleantext.py:25 | a slice of a single-spaced text is single-spaced |
| PerusallClean.StripWords | perusall/cleantext.py:25 | stripping keeps the words |
| PerusallClean.TrimWords | perusall/cleantext.py:25 | whitespace on both sides adds no words |
| PerusallClean.CleanTextShape | perusall/cleantext.py:13-28 | the cleaned text has the words of the kept captures in order and no ". " before a capital |
| PerusallClean.CleanTextUndone | perusall/cleantext.py:24-28 | undoing the paragraph breaks gives exactly the stripped, single-spaced join of the kept captures |
| PerusallClean.CleanPerusallFile | perusall/cleantext.py:4-46 | an unreadable input gives None; the cleaned text is returned when no output path is given, and otherwise written there with None returned |

## Left out

- Readings.Name: paths are POSIX paths; the Windows flavour of pathlib (backslash separators, drive letters) is not modelled.
- The language model is a total function. It never raises, so `process_uploaded_file` never returns None, and no stage's error path on a failed model call is modelled.
- Prompt wording is left out: a `Prompt` value records only the state fields it embeds.
- LangGraph's graph compilation and state merging are foreign library code. The pipeline is modelled as an ordered fold (`Pipeline.Run`) in which each update is merged with map override.
- `RecursiveCharacterTextSplitter` is a parameter, so no property of chunk sizes or overlaps is claimed.
- The PDF, Word and text loaders are parameters that return the loaded documents or `None` for failure.
- `InMemoryVectorStore` and the embeddings are left out. `RAGStore.retrieve` is a parameter over the grown chunk store; `ReadingWorkflow.ContextFromStore` assumes only that it returns at most k chunks from that store.
- `json.load` and `json.dump` are left out. Disk is a map from course to record, and an `Unreadable` record stands for a file that fails to load.
- PerusallExport.LoadJsonFile: `json.loads` is a parameter returning a `Json` value or `None`.
- `str()` of a JSON value is a parameter, and floats are not modelled.
- Reading files and their encoding errors are left out. A file's text is given as a parameter.
- PerusallExport.TallyPages: an `expiresAt` that is not a string raises AttributeError in the source and ends the extraction. In the model, expiry is an abstract predicate on the JSON value that never raises.
- PerusallExport.FetchedText: the HTTP session, time-outs and `time.sleep` are left out. A response is a parameter (JSON, plain text or a failed request).
- `is_url_expired` is a parameter predicate, and the extraction timestamp is the parameter `now`.
- The `main()` functions, argparse, interactive file selection, printing and logging are left out, along with the `run_example` demos.
- The RAG workflow's `setup_example_course` is left out; the backend's is modelled with its document text as a parameter.
- `main-Gemini1.5pro.py` holds only prompt templates and model calls, so it is not part of this model.
- `backend/backend.py` is HTTP transport, so it is not part of this model.
- Text.Lower: only ASCII letters are lowercased. Python's `lower()` maps all of Unicode; `Text.IsSpace` does cover all of Python's whitespace.
- CourseLibrary.Library.SearchDocuments: the in-place `list.sort` is modelled by its result. `Rank` is an insertion sort on values, and `RankedUnique` shows that any stable descending sort gives this same list. No array sort is modelled.
- CourseLibrary.Library: the backend and RAG variants differ in the default top-k (5 and 3) and in the preview (300 and 500). These are constants passed by the stages, since both classes share one model.
- PerusallClean.ParagraphsUndone: the inverse holds only for inputs that had no ".\n\nX" of their own. The cleaner's own input qualifies, as `CleanTextUndone` shows.
