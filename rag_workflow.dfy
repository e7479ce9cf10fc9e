/**
 * The course-library workflow: the extractor generates the main ideas of the input and uses
 * them as the query against the course's library, the scaffold stage includes the found
 * context in its prompt and splits the generated text, and the quality stage evaluates the
 * result. The library is the run's world; its search can refresh memory from disk.
 */
module RagWorkflow {
  import opened Results
  import opened Pipeline
  import opened CourseLibrary
  import StageText

  datatype Prompt =
    | ExtractPrompt(text: string)
    | ScaffoldPrompt(information: string, contextSection: string)
    | QualityPrompt(questions: string, prompts: string)

  /** A string field as an optional string. */
  function AsOption(v: Value): Option<string> {
    if v.Text? then Some(v.text) else None
  }

  /** The extractor: generate, search the course with the generated text (top 3), build the context block. */
  function ExtractorRun(gen: Prompt -> string, st: State, lib: Store): (map<Field, Value>, Store) {
    var info := gen(ExtractPrompt(Show(Get(st, Input))));
    var (found, lib') := Search(lib, Show(Get(st, CourseId)), info, RagTopK);
    (map[ExtractedInfo := Text(info), RelevantContext := Text(StageText.ContextBlock(found, StageText.RagPreview))], lib')
  }

  /** The scaffold stage: include the context section when there is context, then split on "Prompts:". */
  function ScaffoldUpdate(gen: Prompt -> string, st: State): map<Field, Value> {
    var section := StageText.ContextSection(AsOption(Get(st, RelevantContext)));
    var s := StageText.GuardedSplit(gen(ScaffoldPrompt(Show(Get(st, ExtractedInfo)), section)));
    map[Questions := Text(s.questions), Prompts := Text(s.prompts)]
  }

  function QualityUpdate(gen: Prompt -> string, st: State): map<Field, Value> {
    map[Evaluation := Text(gen(QualityPrompt(Show(Get(st, Questions)), Show(Get(st, Prompts)))))]
  }

  /** extractor -> scaffold_prompt -> quality. */
  function Stages(gen: Prompt -> string): seq<Stage<Store>> {
    [ Stage({Input, CourseId}, {ExtractedInfo, RelevantContext}, (st, lib) => ExtractorRun(gen, st, lib)),
      Stage({ExtractedInfo, RelevantContext}, {Questions, Prompts}, (st, lib) => (ScaffoldUpdate(gen, st), lib)),
      Stage({Questions, Prompts}, {Evaluation}, (st, lib) => (QualityUpdate(gen, st), lib)) ]
  }

  /** The starting state: the input and the course, which defaults to "default". */
  function InitialState(input: string, course: Option<string>): State {
    map[Input := Text(input), CourseId := Text(if course.Some? then course.value else "default")]
  }

  /** Each stage writes only its own fields and reads only the inputs or what an earlier stage produced. */
  lemma StagesWellFormed(gen: Prompt -> string)
    ensures WellFormed(Stages(gen)) && DisjointOwners(Stages(gen)) && ReadsProduced(Stages(gen), {Input, CourseId})
  {
    var ss := Stages(gen);
    ExtractorWellFormed(gen);
    assert ReadsOnly(ss[1]) by {
      forall st1: State, st2: State, lib: Store | Agree(st1, st2, ss[1].uses) ensures ss[1].run(st1, lib) == ss[1].run(st2, lib) {
        assert Get(st1, ExtractedInfo) == Get(st2, ExtractedInfo);
        assert Get(st1, RelevantContext) == Get(st2, RelevantContext);
      }
    }
    assert ReadsOnly(ss[2]) by {
      forall st1: State, st2: State, lib: Store | Agree(st1, st2, ss[2].uses) ensures ss[2].run(st1, lib) == ss[2].run(st2, lib) {
        assert Get(st1, Questions) == Get(st2, Questions);
        assert Get(st1, Prompts) == Get(st2, Prompts);
      }
    }
    assert ss[1..][1..][1..] == [];
  }

  lemma ExtractorWellFormed(gen: Prompt -> string)
    ensures WritesOwn(Stages(gen)[0]) && ReadsOnly(Stages(gen)[0])
  {
    var s := Stages(gen)[0];
    forall st: State, lib: Store ensures s.run(st, lib).0.Keys == s.owns {
      var info := gen(ExtractPrompt(Show(Get(st, Input))));
      var (found, lib') := Search(lib, Show(Get(st, CourseId)), info, RagTopK);
    }
    forall st1: State, st2: State, lib: Store | Agree(st1, st2, s.uses) ensures s.run(st1, lib) == s.run(st2, lib) {
      assert Get(st1, Input) == Get(st2, Input);
      assert Get(st1, CourseId) == Get(st2, CourseId);
    }
  }

  /**
   * What a run produces: the relevant context is the block for the search of the course with
   * the extractor's output, the scaffold prompt embeds that output and the context section, the
   * split never reaches its exception handler, and the library ends as the search left it.
   */
  lemma RunOutputs(gen: Prompt -> string, input: string, course: Option<string>, lib: Store)
    ensures var (fin, lib') := Run(Stages(gen), InitialState(input, course), lib);
      var cid := if course.Some? then course.value else "default";
      var info := gen(ExtractPrompt(input));
      var (found, searched) := Search(lib, cid, info, RagTopK);
      var context := StageText.ContextBlock(found, StageText.RagPreview);
      var output := gen(ScaffoldPrompt(info, StageText.ContextSection(Some(context))));
      && Get(fin, ExtractedInfo) == Text(info)
      && Get(fin, RelevantContext) == Text(context)
      && Get(fin, Questions) == Text(StageText.GuardedSplit(output).questions)
      && Get(fin, Prompts) == Text(StageText.GuardedSplit(output).prompts)
      && Get(fin, Evaluation) == Text(gen(QualityPrompt(StageText.GuardedSplit(output).questions, StageText.GuardedSplit(output).prompts)))
      && lib' == searched
  {
    var ss := Stages(gen);
    var st0 := InitialState(input, course);
    var (u1, lib1) := ExtractorRun(gen, st0, lib);
    StartRun(gen, input, course, lib);
    var u2 := ScaffoldUpdate(gen, st0 + u1);
    var u3 := QualityUpdate(gen, st0 + u1 + u2);
    assert ss == [ss[0], ss[1], ss[2]];
    RunThree(ss[0], ss[1], ss[2], st0, lib);
    assert Run(ss, st0, lib) == (st0 + u1 + u2 + u3, lib1);
    Layers(st0, u1, u2, u3);
  }

  /** The extractor's update and library on the starting state. */
  lemma StartRun(gen: Prompt -> string, input: string, course: Option<string>, lib: Store)
    ensures var cid := if course.Some? then course.value else "default";
      var info := gen(ExtractPrompt(input));
      var (found, searched) := Search(lib, cid, info, RagTopK);
      ExtractorRun(gen, InitialState(input, course), lib) ==
        (map[ExtractedInfo := Text(info), RelevantContext := Text(StageText.ContextBlock(found, StageText.RagPreview))], searched)
  {
    var st0 := InitialState(input, course);
    assert Show(Get(st0, Input)) == input;
  }

  /** The fields of the final state, layer by layer. */
  lemma Layers(st0: State, u1: map<Field, Value>, u2: map<Field, Value>, u3: map<Field, Value>)
    requires u1.Keys == {ExtractedInfo, RelevantContext} && u2.Keys == {Questions, Prompts} && u3.Keys == {Evaluation}
    ensures var fin := st0 + u1 + u2 + u3;
      && Get(fin, ExtractedInfo) == u1[ExtractedInfo] && Get(fin, RelevantContext) == u1[RelevantContext]
      && Get(st0 + u1, ExtractedInfo) == u1[ExtractedInfo] && Get(st0 + u1, RelevantContext) == u1[RelevantContext]
      && Get(fin, Questions) == u2[Questions] && Get(fin, Prompts) == u2[Prompts]
      && Get(st0 + u1 + u2, Questions) == u2[Questions] && Get(st0 + u1 + u2, Prompts) == u2[Prompts]
      && Get(fin, Evaluation) == u3[Evaluation]
  {
  }

  /**
   * The scaffold prompt carries a context section exactly when the search did not come back
   * empty: found documents and a failed search are both passed on.
   */
  lemma ContextSectionFollowsSearch(gen: Prompt -> string, input: string, course: Option<string>, lib: Store)
    ensures var cid := if course.Some? then course.value else "default";
      var found := Search(lib, cid, gen(ExtractPrompt(input)), RagTopK).0;
      var section := StageText.ContextSection(Some(StageText.ContextBlock(found, StageText.RagPreview)));
      (section != "" <==> found != Ok([]))
  {
    var cid := if course.Some? then course.value else "default";
    var found := Search(lib, cid, gen(ExtractPrompt(input)), RagTopK).0;
    StageText.GatingFollowsSearch(found, StageText.RagPreview);
  }

  /** Documents the context shows come from the searched course, share a word with the extractor's output, and are at most three. */
  lemma ContextDocumentsRelevant(gen: Prompt -> string, input: string, course: Option<string>, lib: Store)
    ensures var cid := if course.Some? then course.value else "default";
      var info := gen(ExtractPrompt(input));
      var found := Search(lib, cid, info, RagTopK).0;
      found.Ok? ==>
        && |found.value| <= RagTopK
        && forall i :: 0 <= i < |found.value| ==> Overlap(info, found.value[i]) > 0
  {
    var cid := if course.Some? then course.value else "default";
    var info := gen(ExtractPrompt(input));
    var (r, st') := Load(lib, cid);
    if r.Ok? {
      SearchDocsSound(r.value, info, RagTopK);
      SearchDocsBound(r.value, info, RagTopK);
    }
  }
}
