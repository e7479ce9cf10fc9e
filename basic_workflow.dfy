/**
 * The basic three-stage workflow: extract the main ideas of the input, generate questions and
 * teacher prompts from them, and evaluate those. Generation is an uninterpreted function of
 * the prompt; a prompt is identified by the state fields it embeds.
 */
module BasicWorkflow {
  import opened Pipeline
  import StageText
  import Text

  datatype Prompt =
    | ExtractPrompt(text: string)
    | ScaffoldPrompt(information: string)
    | QualityPrompt(questions: string, prompts: string)

  /** The extractor returns the generated main ideas. */
  function ExtractorUpdate(gen: Prompt -> string, st: State): map<Field, Value> {
    map[ExtractedInfo := Text(gen(ExtractPrompt(Show(Get(st, Input)))))]
  }

  /** The scaffold stage splits the generated text, keeping the raw output when there is no "Prompts:". */
  function ScaffoldUpdate(gen: Prompt -> string, st: State): map<Field, Value> {
    var s := StageText.BasicSplit(gen(ScaffoldPrompt(Show(Get(st, ExtractedInfo)))));
    map[Questions := Text(s.questions), Prompts := Text(s.prompts)]
  }

  function QualityUpdate(gen: Prompt -> string, st: State): map<Field, Value> {
    map[Evaluation := Text(gen(QualityPrompt(Show(Get(st, Questions)), Show(Get(st, Prompts)))))]
  }

  /** extractor -> scaffold_prompt -> quality. */
  function Stages(gen: Prompt -> string): seq<Stage<()>> {
    [ Stage({Input}, {ExtractedInfo}, (st, w) => (ExtractorUpdate(gen, st), w)),
      Stage({ExtractedInfo}, {Questions, Prompts}, (st, w) => (ScaffoldUpdate(gen, st), w)),
      Stage({Questions, Prompts}, {Evaluation}, (st, w) => (QualityUpdate(gen, st), w)) ]
  }

  /** The state the workflow is started with: the input text, every other field unset. */
  function InitialState(input: string): State {
    map[Input := Text(input)]
  }

  /**
   * Each stage returns exactly the fields it owns and looks at nothing but the fields it
   * reads; no two stages own a field; and every stage reads only the input or what an earlier
   * stage produced.
   */
  lemma StagesWellFormed(gen: Prompt -> string)
    ensures WellFormed(Stages(gen)) && DisjointOwners(Stages(gen)) && ReadsProduced(Stages(gen), {Input})
  {
    var ss := Stages(gen);
    assert ReadsOnly(ss[0]) by {
      forall st1: State, st2: State, w: () | Agree(st1, st2, ss[0].uses) ensures ss[0].run(st1, w) == ss[0].run(st2, w) {
        assert Get(st1, Input) == Get(st2, Input);
      }
    }
    assert ReadsOnly(ss[1]) by {
      forall st1: State, st2: State, w: () | Agree(st1, st2, ss[1].uses) ensures ss[1].run(st1, w) == ss[1].run(st2, w) {
        assert Get(st1, ExtractedInfo) == Get(st2, ExtractedInfo);
      }
    }
    assert ReadsOnly(ss[2]) by {
      forall st1: State, st2: State, w: () | Agree(st1, st2, ss[2].uses) ensures ss[2].run(st1, w) == ss[2].run(st2, w) {
        assert Get(st1, Questions) == Get(st2, Questions);
        assert Get(st1, Prompts) == Get(st2, Prompts);
      }
    }
    assert ss[1..][1..][1..] == [];
  }

  /**
   * What a run produces: the extractor's output is what the scaffold prompt embeds, the split
   * of the scaffold output is what the quality prompt embeds, and the input is left as it was.
   */
  lemma RunOutputs(gen: Prompt -> string, input: string)
    ensures var fin := Run(Stages(gen), InitialState(input), ()).0;
      var info := gen(ExtractPrompt(input));
      var split := StageText.BasicSplit(gen(ScaffoldPrompt(info)));
      && Get(fin, Input) == Text(input)
      && Get(fin, ExtractedInfo) == Text(info)
      && Get(fin, Questions) == Text(split.questions) && Get(fin, Prompts) == Text(split.prompts)
      && Get(fin, Evaluation) == Text(gen(QualityPrompt(split.questions, split.prompts)))
      && fin.Keys == {Input, ExtractedInfo, Questions, Prompts, Evaluation}
  {
    var ss := Stages(gen);
    var st0 := InitialState(input);
    var u1 := ExtractorUpdate(gen, st0);
    var u2 := ScaffoldUpdate(gen, st0 + u1);
    var u3 := QualityUpdate(gen, st0 + u1 + u2);
    assert ss == [ss[0], ss[1], ss[2]];
    RunThree(ss[0], ss[1], ss[2], st0, ());
    assert Run(ss, st0, ()).0 == st0 + u1 + u2 + u3;
    Layers(input, u1, u2, u3);
  }

  /** The fields of the final state, layer by layer. */
  lemma Layers(input: string, u1: map<Field, Value>, u2: map<Field, Value>, u3: map<Field, Value>)
    requires u1.Keys == {ExtractedInfo} && u2.Keys == {Questions, Prompts} && u3.Keys == {Evaluation}
    ensures var fin := InitialState(input) + u1 + u2 + u3;
      && Get(fin, Input) == Text(input)
      && Get(fin, ExtractedInfo) == u1[ExtractedInfo] && Get(InitialState(input) + u1, ExtractedInfo) == u1[ExtractedInfo]
      && Get(fin, Questions) == u2[Questions] && Get(fin, Prompts) == u2[Prompts]
      && Get(InitialState(input) + u1 + u2, Questions) == u2[Questions]
      && Get(InitialState(input) + u1 + u2, Prompts) == u2[Prompts]
      && Get(fin, Evaluation) == u3[Evaluation]
      && fin.Keys == {Input, ExtractedInfo, Questions, Prompts, Evaluation}
  {
  }

  /**
   * When the generated text follows the requested format, "Questions:" q "Prompts:" p with
   * neither marker inside q or p, the run stores q and p stripped of surrounding whitespace.
   */
  lemma RunFollowsFormat(gen: Prompt -> string, input: string, q: string, p: string)
    requires gen(ScaffoldPrompt(gen(ExtractPrompt(input)))) == StageText.QuestionsMarker + q + StageText.PromptsMarker + p
    requires !Text.Contains(q, StageText.PromptsMarker) && !Text.Contains(q, StageText.QuestionsMarker)
    requires !Text.Contains(p, StageText.PromptsMarker)
    ensures var fin := Run(Stages(gen), InitialState(input), ()).0;
      Get(fin, Questions) == Text(Text.Strip(q)) && Get(fin, Prompts) == Text(Text.Strip(p))
  {
    RunOutputs(gen, input);
    StageText.SplitRoundTrip(q, p);
  }

  /** Without the marker the run keeps the whole generated text as questions and stores no prompts. */
  lemma RunWithoutMarker(gen: Prompt -> string, input: string)
    requires !Text.Contains(gen(ScaffoldPrompt(gen(ExtractPrompt(input)))), StageText.PromptsMarker)
    ensures var fin := Run(Stages(gen), InitialState(input), ()).0;
      && Get(fin, Questions) == Text(gen(ScaffoldPrompt(gen(ExtractPrompt(input)))))
      && Get(fin, Prompts) == Text("")
  {
    RunOutputs(gen, input);
    StageText.SplitVariantsAgree(gen(ScaffoldPrompt(gen(ExtractPrompt(input)))));
  }
}
