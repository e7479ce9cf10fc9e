/**
 * The text built inside the extract and scaffold stages of the course-library pipelines
 * (the backend one and the RAG one): the relevant-context block with its sentinels, the
 * decision to include it in the scaffold prompt, the extractor's working input, and the
 * two ways the scaffold output is split into questions and teacher prompts.
 */
module StageText {
  import opened Results
  import opened Text
  import opened CourseLibrary

  /** What the context block says when the search finds nothing, or fails. */
  const NoMaterials := "No relevant course materials found."
  const RetrievalError := "Error retrieving course materials."

  /** The separator between the pieces of a context block. */
  const Separator := "\n\n---\n\n"

  /** How much of each document's content a piece shows, in the backend and in the RAG workflow. */
  const BackendPreview: nat := 300
  const RagPreview: nat := 500

  /** How much of the working input the backend's extract prompt embeds. */
  const ExtractLimit: nat := 2000

  /** How many chunks of an uploaded file become the working input. */
  const InputChunks: nat := 3

  // ---------------------------------------------------------------- the relevant-context block

  /** One found document as the context block shows it: title, author, the start of the content, "...". */
  function Piece(d: Doc, preview: nat): string {
    "Title: " + d.title + "\nAuthor: " + d.author + "\nContent: " + Take(d.content, preview) + "..."
  }

  function Pieces(docs: seq<Doc>, preview: nat): (ps: seq<string>)
    ensures |ps| == |docs| && forall i :: 0 <= i < |docs| ==> ps[i] == Piece(docs[i], preview)
  {
    seq(|docs|, i requires 0 <= i < |docs| => Piece(docs[i], preview))
  }

  /** The relevant context: the joined pieces of the found documents, or a sentinel. */
  function ContextBlock(found: Result<seq<Doc>, LoadError>, preview: nat): string {
    match found
    case Err(_) => RetrievalError
    case Ok(docs) => if docs == [] then NoMaterials else Join(Separator, Pieces(docs, preview))
  }

  lemma PieceStart(d: Doc, preview: nat)
    ensures |Piece(d, preview)| >= 7 && Piece(d, preview)[..7] == "Title: "
  {
    var rest := d.title + "\nAuthor: " + d.author + "\nContent: " + Take(d.content, preview) + "...";
    assert Piece(d, preview) == "Title: " + rest;
  }

  /**
   * The three outcomes can be told apart from the text alone: a block of found documents is
   * neither sentinel, so the no-materials sentinel means exactly "nothing found" and the
   * error sentinel exactly "the search raised".
   */
  lemma ContextBlockOutcomes(found: Result<seq<Doc>, LoadError>, preview: nat)
    ensures ContextBlock(found, preview) == NoMaterials <==> found == Ok([])
    ensures ContextBlock(found, preview) == RetrievalError <==> found.Err?
    ensures ContextBlock(found, preview) != ""
  {
    if found.Ok? && found.value != [] {
      var ps := Pieces(found.value, preview);
      JoinStartsWithFirst(Separator, ps);
      PieceStart(found.value[0], preview);
      var b := ContextBlock(found, preview);
      assert b[0] == 'T';
      assert NoMaterials[0] == 'N' && RetrievalError[0] == 'E';
    }
  }

  /** A piece ends in "...", and '.' does not occur in the separator. */
  lemma PieceCleanBefore(d: Doc, preview: nat)
    requires !Contains(Piece(d, preview), Separator)
    ensures CleanBefore(Piece(d, preview), Separator)
  {
    var p := Piece(d, preview);
    assert p[|p| - 1] == '.';
  }

  /**
   * The block can be split back into its pieces on the separator, one per found document in
   * ranking order, as long as no document's text itself contains the separator.
   */
  lemma ContextBlockSplits(docs: seq<Doc>, preview: nat)
    requires docs != []
    requires forall i :: 0 <= i < |docs| ==> !Contains(Piece(docs[i], preview), Separator)
    ensures SplitOn(ContextBlock(Ok(docs), preview), Separator) == Pieces(docs, preview)
  {
    var ps := Pieces(docs, preview);
    forall k | 0 <= k < |ps| - 1 ensures CleanBefore(ps[k], Separator) {
      PieceCleanBefore(docs[k], preview);
    }
    SplitOnJoinInverse(Separator, ps);
  }

  /** Each piece shows at most `preview` characters of the content, and all of a shorter content. */
  lemma PiecePreview(d: Doc, preview: nat)
    ensures var shown := Take(d.content, preview);
      && |shown| <= preview && shown == d.content[..|shown|]
      && (|d.content| <= preview ==> shown == d.content)
      && Piece(d, preview) == "Title: " + d.title + "\nAuthor: " + d.author + "\nContent: " + shown + "..."
  {
  }

  // ---------------------------------------------------------------- gating the context section

  /** `state.relevant_context and state.relevant_context != NoMaterials`; `None` is falsy. */
  predicate ContextIncluded(rc: Option<string>) {
    rc.Some? && rc.value != "" && rc.value != NoMaterials
  }

  /** The context section of the scaffold prompt. */
  function ContextSection(rc: Option<string>): (section: string)
    ensures section == "" <==> !ContextIncluded(rc)
  {
    if ContextIncluded(rc) then "\n\nRelevant Course Materials:\n" + rc.value + "\n" else ""
  }

  /**
   * Whatever the extractor stored, the section is left out exactly when nothing was found:
   * both real context and the error sentinel are passed on to the scaffold prompt.
   */
  lemma GatingFollowsSearch(found: Result<seq<Doc>, LoadError>, preview: nat)
    ensures ContextIncluded(Some(ContextBlock(found, preview))) <==> found != Ok([])
    ensures found.Err? ==>
      ContextSection(Some(ContextBlock(found, preview))) == "\n\nRelevant Course Materials:\n" + RetrievalError + "\n"
  {
    ContextBlockOutcomes(found, preview);
  }

  // ---------------------------------------------------------------- the extractor's working input

  /** `" ".join(document_chunks[:3])`. */
  function WorkingInput(chunks: seq<string>): string {
    Join(" ", Take(chunks, InputChunks))
  }

  /** The concatenation of the word lists of several texts. */
  function AllWords(texts: seq<string>): seq<string>
    decreases |texts|
  {
    if texts == [] then [] else Words(texts[0]) + AllWords(texts[1..])
  }

  /** Joining with a space never glues two words together: the words are those of each part in order. */
  lemma {:induction false} JoinSpaceWords(texts: seq<string>)
    ensures Words(Join(" ", texts)) == AllWords(texts)
    decreases |texts|
  {
    if |texts| == 1 {
      assert AllWords(texts[1..]) == [];
    } else if |texts| > 1 {
      JoinSpaceWords(texts[1..]);
      assert IsSpace(' ');
      assert Join(" ", texts) == texts[0] + [' '] + Join(" ", texts[1..]);
      WordsAcrossSpace(texts[0], ' ', Join(" ", texts[1..]));
    }
  }

  /**
   * The working input is made of the first three chunks (fewer when there are fewer), word for
   * word, and is empty when the upload produced no chunks.
   */
  lemma WorkingInputWords(chunks: seq<string>)
    ensures Words(WorkingInput(chunks)) == AllWords(chunks[..if |chunks| < 3 then |chunks| else 3])
    ensures chunks == [] ==> WorkingInput(chunks) == ""
  {
    JoinSpaceWords(Take(chunks, InputChunks));
  }

  // ---------------------------------------------------------------- splitting questions from prompts

  const PromptsMarker := "Prompts:"
  const QuestionsMarker := "Questions:"
  const Unformatted := "Prompts not properly formatted."
  const ParseError := "Error parsing prompts."

  /** The scaffold stage's two outputs. */
  datatype Split = Split(questions: string, prompts: string)

  /** Python's `xs[i]` for `i >= 0`: `None` where it raises `IndexError`. */
  function Index<T>(xs: seq<T>, i: nat): (r: Option<T>)
    ensures r.Some? <==> i < |xs|
    ensures r.Some? ==> r.value == xs[i]
  {
    if i < |xs| then Some(xs[i]) else None
  }

  /**
   * The body of the `try`: questions are the text before the first marker with every
   * "Questions:" removed, stripped; prompts are the text between the first and second marker,
   * stripped. `None` when `split(...)[1]` raises.
   */
  function TrySplit(output: string): Option<Split> {
    var parts := SplitOn(output, PromptsMarker);
    match Index(parts, 1)
    case None => None
    case Some(p) => Some(Split(Strip(ReplaceAll(parts[0], QuestionsMarker, "")), Strip(p)))
  }

  /** The backend's and the RAG workflow's split: the marker test guards the `try`. */
  function GuardedSplit(output: string): Split {
    if Contains(output, PromptsMarker) then
      match TrySplit(output)
      case None => Split(output, ParseError)
      case Some(s) => s
    else Split(output, Unformatted)
  }

  /** The basic workflow's split: no guard, and a failed `try` keeps the raw output and no prompts. */
  function BasicSplit(output: string): Split {
    match TrySplit(output)
    case None => Split(output, "")
    case Some(s) => s
  }

  /** The `try` body fails exactly when the marker is missing. */
  lemma TrySplitDefined(output: string)
    ensures TrySplit(output).Some? <==> Contains(output, PromptsMarker)
  {
    SplitOnCount(output, PromptsMarker);
  }

  /**
   * In the guarded split the exception handler cannot run: the outcome is the parsed pair when
   * the marker occurs and the unformatted fallback otherwise.
   */
  lemma GuardedSplitNeverFails(output: string)
    ensures Contains(output, PromptsMarker) ==> GuardedSplit(output) == TrySplit(output).value
    ensures !Contains(output, PromptsMarker) ==> GuardedSplit(output) == Split(output, Unformatted)
  {
    TrySplitDefined(output);
  }

  /**
   * The two variants agree whenever the marker occurs; without it both keep the raw output as
   * the questions and differ only in the prompts they report.
   */
  lemma SplitVariantsAgree(output: string)
    ensures Contains(output, PromptsMarker) ==> GuardedSplit(output) == BasicSplit(output)
    ensures !Contains(output, PromptsMarker) ==>
      BasicSplit(output) == Split(output, "") && GuardedSplit(output) == Split(output, Unformatted)
  {
    TrySplitDefined(output);
  }

  /** Parsed prompts never contain the marker: anything after a second "Prompts:" is dropped. */
  lemma ParsedPromptsLackMarker(output: string)
    requires Contains(output, PromptsMarker)
    ensures !Contains(TrySplit(output).value.prompts, PromptsMarker)
  {
    TrySplitDefined(output);
    SplitOnPiecesAvoid(output, PromptsMarker, 1);
    StripAvoids(SplitOn(output, PromptsMarker)[1], PromptsMarker);
  }

  lemma MarkersBorderFree()
    ensures BorderFree(PromptsMarker) && BorderFree(QuestionsMarker)
  {
    UniqueLastBorderFree(PromptsMarker);
    UniqueLastBorderFree(QuestionsMarker);
  }

  /** "Questions:" + q never contains "Prompts:" when q does not: "Questions:" has no 'P'. */
  lemma HeadLacksPrompts(q: string)
    requires !Contains(q, PromptsMarker)
    ensures !Contains(QuestionsMarker + q, PromptsMarker)
  {
    var x := QuestionsMarker + q;
    forall j | 0 <= j <= |x| ensures !OccursAt(x, PromptsMarker, j) {
      if j + |PromptsMarker| <= |x| {
        if j < |QuestionsMarker| {
          assert x[j..j + |PromptsMarker|][0] == QuestionsMarker[j] != 'P';
        } else {
          assert x[j..j + |PromptsMarker|] == q[j - |QuestionsMarker|..j - |QuestionsMarker| + |PromptsMarker|];
          assert !OccursAt(q, PromptsMarker, j - |QuestionsMarker|);
        }
      }
    }
  }

  /**
   * The split recovers what the prompt format asks for: on "Questions:" + q + "Prompts:" + p,
   * with neither marker inside q or p, the questions are q stripped and the prompts p stripped.
   */
  lemma SplitRoundTrip(q: string, p: string)
    requires !Contains(q, PromptsMarker) && !Contains(q, QuestionsMarker)
    requires !Contains(p, PromptsMarker)
    ensures GuardedSplit(QuestionsMarker + q + PromptsMarker + p) == Split(Strip(q), Strip(p))
    ensures BasicSplit(QuestionsMarker + q + PromptsMarker + p) == Split(Strip(q), Strip(p))
  {
    var head := QuestionsMarker + q;
    var output := head + PromptsMarker + p;
    MarkersBorderFree();
    HeadLacksPrompts(q);
    SplitOnAtJoin(head, PromptsMarker, p);
    SplitOnFirst(p, PromptsMarker);
    assert SplitOn(output, PromptsMarker) == [head, p];
    ReplaceAllLeading(QuestionsMarker, q);
    TrySplitDefined(output);
    assert TrySplit(output) == Some(Split(Strip(q), Strip(p)));
  }
}
