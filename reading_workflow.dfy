/**
 * The Reading A/B workflow: stage A asks for keywords and key sentences of Reading A (which is
 * never chunked), stage B adds the chunks of the Reading B documents to the vector store,
 * retrieves context for the keywords and objectives and asks for annotations, and stage C
 * reviews the annotations against the objectives. The vector store is module-level in the
 * program, so it is the run's world: it outlives a run and keeps growing.
 */
module ReadingWorkflow {
  import opened Results
  import opened Pipeline
  import opened Readings
  import Text

  datatype Prompt =
    | KeywordsPrompt(title: string, content: string)
    | KeySentencesPrompt(title: string, content: string)
    | AnnotatePrompt(keySentences: string, objectivesBlock: string, context: string)
    | ReviewPrompt(objectiveLines: string, annotations: string)

  /** How many chunks a retrieval asks for. */
  const RetrieveK: nat := 8

  /**
   * The libraries the workflow relies on: the splitter that chunks Reading B and the vector
   * store's similarity search, which returns chunks of the store for a query and a count.
   */
  datatype Services = Services(split: string -> seq<string>, retrieve: (seq<Chunk>, string, nat) -> seq<Chunk>)

  /** A dictionary field; an unset one is empty. */
  function DictOf(v: Value): map<string, string> {
    if v.Dict? then v.entries else map[]
  }

  /** A list-of-dictionaries field; an unset one is empty. */
  function DictsOf(v: Value): seq<map<string, string>> {
    if v.Dicts? then v.items else []
  }

  function AsOption(v: Value): Option<string> {
    if v.Text? then Some(v.text) else None
  }

  /** Stage A: both prompts embed Reading A's title and its whole content. */
  function ExtractUpdate(gen: Prompt -> string, st: State): map<Field, Value> {
    var a := DictOf(Pipeline.Get(st, ReadingA));
    map[AKeywords := Text(gen(KeywordsPrompt(Readings.Get(a, "title"), Readings.Get(a, "content")))),
        AKeySentences := Text(gen(KeySentencesPrompt(Readings.Get(a, "title"), Readings.Get(a, "content"))))]
  }

  /** Stage B's context: the excerpts of the chunks the search returns from the store for the keywords and objectives. */
  function Context(sv: Services, store: seq<Chunk>, keywords: Option<string>, objectives: seq<string>): string {
    ContextText(sv.retrieve(store, Query(keywords, objectives), RetrieveK))
  }

  /** Stage B's output: annotations for the key sentences, the objectives block and the context. */
  function Annotation(gen: Prompt -> string, sentences: string, objectives: seq<string>, ctx: string): string {
    gen(AnnotatePrompt(sentences, ObjectivesBlock(objectives), ctx))
  }

  /** Stage C's output: the review lists the objectives without the "(none provided)" fallback. */
  function Review(gen: Prompt -> string, objectives: seq<string>, annotations: string): string {
    gen(ReviewPrompt(ObjectiveLines(objectives), annotations))
  }

  /** Stage B: add Reading B's chunks to the store, retrieve from the grown store, and annotate. */
  function GenerateRun(gen: Prompt -> string, sv: Services, st: State, store: seq<Chunk>): (map<Field, Value>, seq<Chunk>) {
    var grown := store + FlatChunks(DictsOf(Pipeline.Get(st, ReadingB)), sv.split);
    var objectives := TextsOf(Pipeline.Get(st, LearningObjectives));
    var ctx := Context(sv, grown, AsOption(Pipeline.Get(st, AKeywords)), objectives);
    var annotations := Annotation(gen, Show(Pipeline.Get(st, AKeySentences)), objectives, ctx);
    (map[RagContext := Text(ctx), Annotations := Text(annotations)], grown)
  }

  function QualityUpdate(gen: Prompt -> string, st: State): map<Field, Value> {
    map[Evaluation := Text(Review(gen, TextsOf(Pipeline.Get(st, LearningObjectives)), Show(Pipeline.Get(st, Annotations))))]
  }

  function ExtractStage(gen: Prompt -> string): Stage<seq<Chunk>> {
    Stage({ReadingA}, {AKeywords, AKeySentences}, (st, store) => (ExtractUpdate(gen, st), store))
  }

  function GenerateStage(gen: Prompt -> string, sv: Services): Stage<seq<Chunk>> {
    Stage({ReadingB, LearningObjectives, AKeywords, AKeySentences}, {RagContext, Annotations},
          (st, store) => GenerateRun(gen, sv, st, store))
  }

  function QualityStage(gen: Prompt -> string): Stage<seq<Chunk>> {
    Stage({LearningObjectives, Annotations}, {Evaluation}, (st, store) => (QualityUpdate(gen, st), store))
  }

  /** A_extract -> B_generate -> C_quality. */
  function Stages(gen: Prompt -> string, sv: Services): seq<Stage<seq<Chunk>>> {
    [ExtractStage(gen), GenerateStage(gen, sv), QualityStage(gen)]
  }

  /** The state a run starts from: Reading A, the objectives and the Reading B documents. */
  function InitialState(a: map<string, string>, objectives: seq<string>, bs: seq<map<string, string>>): State {
    map[ReadingA := Dict(a), LearningObjectives := Texts(objectives), ReadingB := Dicts(bs)]
  }

  /** Each agent returns exactly its fields, reads only its inputs, and reads nothing produced later. */
  lemma StagesWellFormed(gen: Prompt -> string, sv: Services)
    ensures WellFormed(Stages(gen, sv)) && DisjointOwners(Stages(gen, sv))
    ensures ReadsProduced(Stages(gen, sv), {ReadingA, LearningObjectives, ReadingB})
  {
    var ss := Stages(gen, sv);
    var initial := {ReadingA, LearningObjectives, ReadingB};
    assert ReadsOnly(ss[0]) by {
      forall st1: State, st2: State, store: seq<Chunk> | Agree(st1, st2, ss[0].uses)
        ensures ss[0].run(st1, store) == ss[0].run(st2, store)
      {
        assert Pipeline.Get(st1, ReadingA) == Pipeline.Get(st2, ReadingA);
      }
    }
    assert ReadsOnly(ss[1]) by {
      forall st1: State, st2: State, store: seq<Chunk> | Agree(st1, st2, ss[1].uses)
        ensures ss[1].run(st1, store) == ss[1].run(st2, store)
      {
        assert Pipeline.Get(st1, ReadingB) == Pipeline.Get(st2, ReadingB);
        assert Pipeline.Get(st1, LearningObjectives) == Pipeline.Get(st2, LearningObjectives);
        assert Pipeline.Get(st1, AKeywords) == Pipeline.Get(st2, AKeywords);
        assert Pipeline.Get(st1, AKeySentences) == Pipeline.Get(st2, AKeySentences);
      }
    }
    assert ReadsOnly(ss[2]) by {
      forall st1: State, st2: State, store: seq<Chunk> | Agree(st1, st2, ss[2].uses)
        ensures ss[2].run(st1, store) == ss[2].run(st2, store)
      {
        assert Pipeline.Get(st1, LearningObjectives) == Pipeline.Get(st2, LearningObjectives);
        assert Pipeline.Get(st1, Annotations) == Pipeline.Get(st2, Annotations);
      }
    }
    assert ss[1..] == [ss[1], ss[2]] && ss[1..][1..] == [ss[2]] && ss[1..][1..][1..] == [];
    assert ReadsProduced(ss[1..][1..], initial + ss[0].owns + ss[1].owns);
    assert ReadsProduced(ss[1..], initial + ss[0].owns);
  }

  /**
   * What a run produces: stage A's keywords and key sentences for Reading A's title and
   * content; the store grown by the chunks of Reading B; the context for the chunks retrieved
   * from the grown store with the keywords and the objectives; the annotations for the key
   * sentences, the objectives block and that context; and the review of the annotations.
   */
  lemma RunOutputs(gen: Prompt -> string, sv: Services, st: State, a: map<string, string>, objectives: seq<string>,
                   bs: seq<map<string, string>>, store: seq<Chunk>)
    requires Pipeline.Get(st, ReadingA) == Dict(a) && Pipeline.Get(st, LearningObjectives) == Texts(objectives)
    requires Pipeline.Get(st, ReadingB) == Dicts(bs)
    ensures var (fin, store') := Run(Stages(gen, sv), st, store);
      var keywords := gen(KeywordsPrompt(Readings.Get(a, "title"), Readings.Get(a, "content")));
      var sentences := gen(KeySentencesPrompt(Readings.Get(a, "title"), Readings.Get(a, "content")));
      var grown := store + FlatChunks(bs, sv.split);
      var ctx := Context(sv, grown, Some(keywords), objectives);
      var annotations := Annotation(gen, sentences, objectives, ctx);
      && Pipeline.Get(fin, AKeywords) == Text(keywords)
      && Pipeline.Get(fin, AKeySentences) == Text(sentences)
      && Pipeline.Get(fin, RagContext) == Text(ctx)
      && Pipeline.Get(fin, Annotations) == Text(annotations)
      && Pipeline.Get(fin, Evaluation) == Text(Review(gen, objectives, annotations))
      && store' == grown
  {
    RunStages(gen, sv, st, store);
    var keywords := gen(KeywordsPrompt(Readings.Get(a, "title"), Readings.Get(a, "content")));
    var sentences := gen(KeySentencesPrompt(Readings.Get(a, "title"), Readings.Get(a, "content")));
    var st1 := st + ExtractUpdate(gen, st);
    ExtractOn(gen, st, a);
    GenerateOn(gen, sv, st1, store, keywords, sentences, objectives, bs);
    var (u2, grown) := GenerateRun(gen, sv, st1, store);
    Layers(st1, u2, QualityUpdate(gen, st1 + u2));
  }

  /** Stage B's fields survive stage C, and stage A's survive both. */
  lemma Layers(st1: State, u2: map<Field, Value>, u3: map<Field, Value>)
    requires u2.Keys == {RagContext, Annotations} && u3.Keys == {Evaluation}
    ensures var fin := st1 + u2 + u3;
      && Pipeline.Get(fin, AKeywords) == Pipeline.Get(st1, AKeywords)
      && Pipeline.Get(fin, AKeySentences) == Pipeline.Get(st1, AKeySentences)
      && Pipeline.Get(fin, RagContext) == u2[RagContext] && Pipeline.Get(fin, Annotations) == u2[Annotations]
      && Pipeline.Get(fin, Evaluation) == u3[Evaluation]
  {
  }

  /** Stage A's update for Reading A; the other fields pass through. */
  lemma ExtractOn(gen: Prompt -> string, st: State, a: map<string, string>)
    requires Pipeline.Get(st, ReadingA) == Dict(a)
    ensures var st1 := st + ExtractUpdate(gen, st);
      && Pipeline.Get(st1, AKeywords) == Text(gen(KeywordsPrompt(Readings.Get(a, "title"), Readings.Get(a, "content"))))
      && Pipeline.Get(st1, AKeySentences) == Text(gen(KeySentencesPrompt(Readings.Get(a, "title"), Readings.Get(a, "content"))))
      && Pipeline.Get(st1, LearningObjectives) == Pipeline.Get(st, LearningObjectives)
      && Pipeline.Get(st1, ReadingB) == Pipeline.Get(st, ReadingB)
  {
  }

  /** Stage B's update and store, and stage C's update, for known keywords, sentences, objectives and readings. */
  lemma GenerateOn(gen: Prompt -> string, sv: Services, st1: State, store: seq<Chunk>,
                   keywords: string, sentences: string, objectives: seq<string>, bs: seq<map<string, string>>)
    requires Pipeline.Get(st1, AKeywords) == Text(keywords) && Pipeline.Get(st1, AKeySentences) == Text(sentences)
    requires Pipeline.Get(st1, LearningObjectives) == Texts(objectives) && Pipeline.Get(st1, ReadingB) == Dicts(bs)
    ensures var (u2, grown) := GenerateRun(gen, sv, st1, store);
      var ctx := Context(sv, store + FlatChunks(bs, sv.split), Some(keywords), objectives);
      var annotations := Annotation(gen, sentences, objectives, ctx);
      && grown == store + FlatChunks(bs, sv.split)
      && u2 == map[RagContext := Text(ctx), Annotations := Text(annotations)]
      && QualityUpdate(gen, st1 + u2) == map[Evaluation := Text(Review(gen, objectives, annotations))]
  {
  }

  /** A run is the three agents' updates merged in order. */
  lemma RunStages(gen: Prompt -> string, sv: Services, st: State, store: seq<Chunk>)
    ensures Run(Stages(gen, sv), st, store) ==
      var st1 := st + ExtractUpdate(gen, st);
      var (u2, grown) := GenerateRun(gen, sv, st1, store);
      (st1 + u2 + QualityUpdate(gen, st1 + u2), grown)
  {
    RunThree(ExtractStage(gen), GenerateStage(gen, sv), QualityStage(gen), st, store);
  }

  /** A vector store's search returns at most `k` chunks, all of them held by the store. */
  predicate RetrievesFromStore(retrieve: (seq<Chunk>, string, nat) -> seq<Chunk>, store: seq<Chunk>, query: string, k: nat) {
    var found := retrieve(store, query, k);
    |found| <= k && forall c :: c in found ==> c in store
  }

  /**
   * The context is grounded in the store: with a search that keeps to the store, the context
   * is "No external context." exactly when nothing was retrieved, and otherwise consists of at
   * most eight excerpts, each of a chunk that was in the store before the run or that came from
   * one of this run's Reading B documents, with that document's title and author.
   */
  lemma ContextFromStore(
    sv: Services, keywords: string, objectives: seq<string>, bs: seq<map<string, string>>, store: seq<Chunk>)
    requires RetrievesFromStore(sv.retrieve, store + FlatChunks(bs, sv.split), Query(Some(keywords), objectives), RetrieveK)
    ensures var found := sv.retrieve(store + FlatChunks(bs, sv.split), Query(Some(keywords), objectives), RetrieveK);
      && (ContextText(found) == NoExternalContext <==> found == [])
      && |Excerpts(found)| <= RetrieveK
      && forall i :: 0 <= i < |found| ==>
           Excerpts(found)[i] == Excerpt(found[i]) &&
           (found[i] in store || exists j :: 0 <= j < |bs| && FromReading(found[i], bs[j], sv.split))
  {
    var found := sv.retrieve(store + FlatChunks(bs, sv.split), Query(Some(keywords), objectives), RetrieveK);
    ContextTextCases(found);
    forall i | 0 <= i < |found| && found[i] !in store
      ensures exists j :: 0 <= j < |bs| && FromReading(found[i], bs[j], sv.split)
    {
      assert found[i] in store + FlatChunks(bs, sv.split);
      FlatChunksSources(bs, sv.split, found[i]);
    }
  }

  /** `c` is one of the pieces the splitter makes of reading `b`, with `b`'s title and author. */
  predicate FromReading(c: Chunk, b: map<string, string>, split: string -> seq<string>) {
    c.content in split(Readings.Get(b, "content")) && c.title == Readings.Get(b, "title") && c.author == Readings.Get(b, "author")
  }

  /** Every chunk `b_to_docs` makes is a piece of one of the readings, with its title and author. */
  lemma {:induction false} FlatChunksSources(blobs: seq<map<string, string>>, split: string -> seq<string>, c: Chunk)
    requires c in FlatChunks(blobs, split)
    ensures exists j :: 0 <= j < |blobs| && FromReading(c, blobs[j], split)
    decreases |blobs|
  {
    var n := |blobs| - 1;
    var init := blobs[..n];
    if c in FlatChunks(init, split) {
      FlatChunksSources(init, split, c);
      var j :| 0 <= j < |init| && FromReading(c, init[j], split);
      assert init[j] == blobs[j];
    } else {
      var cs := ChunksOf(blobs[n], split);
      assert c in cs;
      var i :| 0 <= i < |cs| && cs[i] == c;
      assert FromReading(c, blobs[n], split);
    }
  }
}
