/**
 * The backend's workflow: the same three stages as the course-library workflow, except that
 * the extractor first processes an uploaded file (its chunks are added to the course and the
 * first three become the working input), embeds at most 2000 characters of the input in its
 * prompt, and shows 300 characters per found document. `process_uploaded_file` picks the
 * course, seeds the example course, and runs the workflow.
 */
module BackendWorkflow {
  import opened Results
  import opened Pipeline
  import opened CourseLibrary
  import StageText
  import Readings
  import Upload
  import Text

  datatype Prompt =
    | ExtractPrompt(text: string)
    | ScaffoldPrompt(information: string, contextSection: string)
    | QualityPrompt(questions: string, prompts: string)

  /** What handling the uploaded file leaves: the chunks, the working input and the library. */
  datatype FileOutcome = FileOutcome(chunks: seq<string>, input: Value, lib: Store)

  /** The title the chunks of an upload are stored under. */
  function UploadTitle(path: string): string {
    "Uploaded: " + Readings.Name(path)
  }

  /**
   * The file step of the extractor: with a non-empty path to an existing file, process it,
   * add its chunks to the course and join the first three into the working input; a processing
   * error is swallowed, and then, as without a file, nothing changes.
   */
  function FileStep(up: Upload.Uploads, filePath: Value, input: Value, course: string, lib: Store): FileOutcome {
    if TruthyText(filePath) && up.present(filePath.text) then
      match Upload.ProcessFile(up, filePath.text)
      case Err(_) => FileOutcome([], input, lib)
      case Ok(chunks) =>
        FileOutcome(chunks, Text(StageText.WorkingInput(chunks)), AddChunks(lib, course, chunks, UploadTitle(filePath.text)))
    else FileOutcome([], input, lib)
  }

  function ExtractorRun(gen: Prompt -> string, up: Upload.Uploads, st: State, lib: Store): (r: (map<Field, Value>, Store))
    ensures r.0.Keys == ExtractorOwns
  {
    var course := Show(Get(st, CourseId));
    var file := FileStep(up, Get(st, FilePath), Get(st, Input), course, lib);
    var info := gen(ExtractPrompt(Text.Take(Show(file.input), StageText.ExtractLimit)));
    var (found, lib') := Search(file.lib, course, info, BackendTopK);
    (map[
      ExtractedInfo := Text(info),
      RelevantContext := Text(StageText.ContextBlock(found, StageText.BackendPreview)),
      DocumentChunks := Texts(file.chunks),
      Input := file.input], lib')
  }

  function AsOption(v: Value): Option<string> {
    if v.Text? then Some(v.text) else None
  }

  function ScaffoldUpdate(gen: Prompt -> string, st: State): map<Field, Value> {
    var section := StageText.ContextSection(AsOption(Get(st, RelevantContext)));
    var s := StageText.GuardedSplit(gen(ScaffoldPrompt(Show(Get(st, ExtractedInfo)), section)));
    map[Questions := Text(s.questions), Prompts := Text(s.prompts)]
  }

  function QualityUpdate(gen: Prompt -> string, st: State): map<Field, Value> {
    map[Evaluation := Text(gen(QualityPrompt(Show(Get(st, Questions)), Show(Get(st, Prompts)))))]
  }

  const ExtractorOwns: set<Field> := {ExtractedInfo, RelevantContext, DocumentChunks, Input}

  function ExtractorStage(gen: Prompt -> string, up: Upload.Uploads): Stage<Store> {
    Stage({Input, CourseId, FilePath}, ExtractorOwns, (st, lib) => ExtractorRun(gen, up, st, lib))
  }

  function ScaffoldStage(gen: Prompt -> string): Stage<Store> {
    Stage({ExtractedInfo, RelevantContext}, {Questions, Prompts}, (st, lib) => (ScaffoldUpdate(gen, st), lib))
  }

  function QualityStage(gen: Prompt -> string): Stage<Store> {
    Stage({Questions, Prompts}, {Evaluation}, (st, lib) => (QualityUpdate(gen, st), lib))
  }

  /** extractor -> scaffold_prompt -> quality. */
  function Stages(gen: Prompt -> string, up: Upload.Uploads): seq<Stage<Store>> {
    [ExtractorStage(gen, up), ScaffoldStage(gen), QualityStage(gen)]
  }

  /** Each stage writes only its own fields and reads only the inputs or what an earlier stage produced. */
  lemma StagesWellFormed(gen: Prompt -> string, up: Upload.Uploads)
    ensures WellFormed(Stages(gen, up)) && DisjointOwners(Stages(gen, up))
    ensures ReadsProduced(Stages(gen, up), {Input, CourseId, FilePath})
  {
    var ss := Stages(gen, up);
    var initial := {Input, CourseId, FilePath};
    assert ReadsOnly(ss[0]) by {
      forall st1: State, st2: State, lib: Store | Agree(st1, st2, ss[0].uses) ensures ss[0].run(st1, lib) == ss[0].run(st2, lib) {
        assert Get(st1, Input) == Get(st2, Input);
        assert Get(st1, CourseId) == Get(st2, CourseId);
        assert Get(st1, FilePath) == Get(st2, FilePath);
      }
    }
    assert ReadsOnly(ss[1]) by {
      forall st1: State, st2: State, lib: Store | Agree(st1, st2, ss[1].uses) ensures ss[1].run(st1, lib) == ss[1].run(st2, lib) {
        assert Get(st1, ExtractedInfo) == Get(st2, ExtractedInfo);
        assert Get(st1, RelevantContext) == Get(st2, RelevantContext);
      }
    }
    assert ReadsOnly(ss[2]) by {
      forall st1: State, st2: State, lib: Store | Agree(st1, st2, ss[2].uses) ensures ss[2].run(st1, lib) == ss[2].run(st2, lib) {
        assert Get(st1, Questions) == Get(st2, Questions);
        assert Get(st1, Prompts) == Get(st2, Prompts);
      }
    }
    assert ss[1..] == [ss[1], ss[2]] && ss[1..][1..] == [ss[2]] && ss[1..][1..][1..] == [];
    assert ReadsProduced(ss[1..][1..], initial + ss[0].owns + ss[1].owns);
    assert ReadsProduced(ss[1..], initial + ss[0].owns);
  }

  /**
   * A processed upload becomes the working input, word for word the first three chunks, and
   * its chunks are appended to the course as "Uploaded: name - Part i" documents; with no file,
   * a missing file or a processing error the input, the chunks and the library stay as they were.
   */
  lemma FileStepEffects(up: Upload.Uploads, filePath: Value, input: Value, course: string, lib: Store)
    ensures var out := FileStep(up, filePath, input, course, lib);
      if TruthyText(filePath) && up.present(filePath.text) && Upload.ProcessFile(up, filePath.text).Ok? then
        var chunks := Upload.ProcessFile(up, filePath.text).value;
        var before := Collection(lib, course);
        var after := Collection(out.lib, course);
        && out.chunks == chunks
        && out.input.Text?
        && Text.Words(out.input.text) == StageText.AllWords(chunks[..if |chunks| < 3 then |chunks| else 3])
        && |after| == |before| + |chunks| && after[..|before|] == before
        && (forall i :: 0 <= i < |chunks| ==>
              after[|before| + i] == ChunkDoc(|before|, UploadTitle(filePath.text), i, chunks[i]))
        && (forall c :: c != course ==> Collection(out.lib, c) == Collection(lib, c))
      else out == FileOutcome([], input, lib)
  {
    if TruthyText(filePath) && up.present(filePath.text) && Upload.ProcessFile(up, filePath.text).Ok? {
      var chunks := Upload.ProcessFile(up, filePath.text).value;
      StageText.WorkingInputWords(chunks);
      AddChunksAppends(lib, course, chunks, UploadTitle(filePath.text));
      AddChunksFrame(lib, course, chunks, UploadTitle(filePath.text));
    }
  }

  /**
   * What the extractor returns: the file step's chunks and input, its output for a prompt that
   * embeds at most the first 2000 characters of the input, and the context block for the
   * search of the course after the upload was added.
   */
  lemma ExtractorOutputs(gen: Prompt -> string, up: Upload.Uploads, st: State, lib: Store)
    ensures var (u, lib') := ExtractorRun(gen, up, st, lib);
      var course := Show(Get(st, CourseId));
      var file := FileStep(up, Get(st, FilePath), Get(st, Input), course, lib);
      var shown := Text.Take(Show(file.input), StageText.ExtractLimit);
      var info := gen(ExtractPrompt(shown));
      var (found, searched) := Search(file.lib, course, info, BackendTopK);
      && |shown| <= StageText.ExtractLimit && shown == Show(file.input)[..|shown|]
      && u[Input] == file.input
      && u[DocumentChunks] == Texts(file.chunks)
      && u[ExtractedInfo] == Text(info)
      && u[RelevantContext] == Text(StageText.ContextBlock(found, StageText.BackendPreview))
      && lib' == searched
  {
  }

  /**
   * What a run produces from any starting state: the extractor's fields as it returned them,
   * the split of the scaffold output for a prompt embedding the extracted information and the
   * context section, and the course and file path as they were.
   */
  lemma RunOutputs(gen: Prompt -> string, up: Upload.Uploads, st: State, lib: Store)
    ensures var (fin, lib') := Run(Stages(gen, up), st, lib);
      var (u, searched) := ExtractorRun(gen, up, st, lib);
      var output := gen(ScaffoldPrompt(Show(u[ExtractedInfo]), StageText.ContextSection(AsOption(u[RelevantContext]))));
      && (forall f :: f in ExtractorOwns ==> Get(fin, f) == u[f])
      && Get(fin, Questions) == Text(StageText.GuardedSplit(output).questions)
      && Get(fin, Prompts) == Text(StageText.GuardedSplit(output).prompts)
      && Get(fin, CourseId) == Get(st, CourseId) && Get(fin, FilePath) == Get(st, FilePath)
      && lib' == searched
  {
    RunAfterExtractor(gen, ExtractorStage(gen, up), st, lib);
  }

  /** The same, for any first stage that returns the extractor's fields. */
  lemma RunAfterExtractor(gen: Prompt -> string, e: Stage<Store>, st: State, lib: Store)
    requires e.run(st, lib).0.Keys == ExtractorOwns
    ensures var (fin, lib') := Run([e, ScaffoldStage(gen), QualityStage(gen)], st, lib);
      var (u, searched) := e.run(st, lib);
      var output := gen(ScaffoldPrompt(Show(u[ExtractedInfo]), StageText.ContextSection(AsOption(u[RelevantContext]))));
      && (forall f :: f in ExtractorOwns ==> Get(fin, f) == u[f])
      && Get(fin, Questions) == Text(StageText.GuardedSplit(output).questions)
      && Get(fin, Prompts) == Text(StageText.GuardedSplit(output).prompts)
      && Get(fin, CourseId) == Get(st, CourseId) && Get(fin, FilePath) == Get(st, FilePath)
      && lib' == searched
  {
    RunThree(e, ScaffoldStage(gen), QualityStage(gen), st, lib);
    var (u, searched) := e.run(st, lib);
    var u2 := ScaffoldUpdate(gen, st + u);
    var u3 := QualityUpdate(gen, st + u + u2);
    assert Get(st + u, ExtractedInfo) == u[ExtractedInfo] && Get(st + u, RelevantContext) == u[RelevantContext];
    Layers(st, u, u2, u3);
  }

  /** Reading back through the three layers of stage outputs. */
  lemma Layers(st: State, u: map<Field, Value>, u2: map<Field, Value>, u3: map<Field, Value>)
    requires u.Keys == ExtractorOwns && u2.Keys == {Questions, Prompts} && u3.Keys == {Evaluation}
    ensures var fin := st + u + u2 + u3;
      && (forall f :: f in ExtractorOwns ==> Get(fin, f) == u[f])
      && Get(fin, Questions) == u2[Questions] && Get(fin, Prompts) == u2[Prompts]
      && Get(fin, CourseId) == Get(st, CourseId) && Get(fin, FilePath) == Get(st, FilePath)
  {
  }

  // ---------------------------------------------------------------- process_uploaded_file

  const DemoCourse := "reading-apprenticeship-demo"
  const DemoTitle := "Reading Apprenticeship Framework Overview"
  const DemoAuthor := "WestEd Reading Apprenticeship"
  const DemoKind := "framework_guide"
  const DefaultInstruction := "Analyze the uploaded document and generate Reading Apprenticeship questions."

  /** `setup_example_course`: add the framework overview (its text is a parameter) to the demo course. */
  function SetupExampleCourse(lib: Store, overview: string): Store {
    AddDoc(lib, DemoCourse, DemoTitle, overview, DemoAuthor, DemoKind).0
  }

  /** The course an upload goes to: the given one, or "upload_" and the file's stem when none or "" is given. */
  function UploadCourse(path: string, course: Option<string>): string {
    if course.None? || course.value == "" then "upload_" + Readings.Stem(Readings.Name(path)) else course.value
  }

  /** The example course is set up when the chosen course has nothing in memory. */
  function Seeded(lib: Store, cid: string, overview: string): Store {
    if cid !in lib.memory then SetupExampleCourse(lib, overview) else lib
  }

  /** The custom input, or the default instruction when none is given. */
  function Instruction(customInput: string): string {
    if customInput == "" then DefaultInstruction else customInput
  }

  /** The starting `SharedInput`: the input, the course, which defaults to "default", the file path if any, and no chunks. */
  function InitialState(input: string, course: Option<string>, path: Option<string>): State {
    map[Input := Text(input), CourseId := Text(if course.Some? then course.value else "default"),
        FilePath := (if path.Some? then Text(path.value) else Null), DocumentChunks := Texts([])]
  }

  /**
   * A run from a starting state searches the given course, or "default" without one, keeps the
   * course and the file path, and without a file keeps the input and stores no chunks.
   */
  lemma InitialRun(gen: Prompt -> string, up: Upload.Uploads, lib: Store, input: string, course: Option<string>, path: Option<string>)
    ensures var st := InitialState(input, course, path);
      var cid := if course.Some? then course.value else "default";
      var (fin, lib') := Run(Stages(gen, up), st, lib);
      && Get(fin, CourseId) == Text(cid)
      && Get(fin, FilePath) == (if path.Some? then Text(path.value) else Null)
      && lib' == Load(FileStep(up, Get(st, FilePath), Text(input), cid, lib).lib, cid).1
      && (path.None? ==> Get(fin, Input) == Text(input) && Get(fin, DocumentChunks) == Texts([]))
  {
    var st := InitialState(input, course, path);
    var cid := if course.Some? then course.value else "default";
    assert Get(st, CourseId) == Text(cid) && Get(st, Input) == Text(input);
    RunOutputs(gen, up, st, lib);
    RunLibrary(gen, up, st, lib);
    ExtractorLibrary(gen, up, st, lib);
    if path.None? {
      ExtractorSkips(gen, up, st, lib);
    }
  }

  /**
   * `process_uploaded_file`: choose the course, seed the example course when the chosen course
   * is not in memory, default the instruction, and run the workflow on the file.
   */
  function ProcessUploadedFile(gen: Prompt -> string, up: Upload.Uploads, lib: Store, overview: string,
                               path: string, course: Option<string>, customInput: string): (State, Store)
  {
    var cid := UploadCourse(path, course);
    Run(Stages(gen, up), InitialState(Instruction(customInput), Some(cid), Some(path)), Seeded(lib, cid, overview))
  }

  /** The chosen course is never empty: a given non-empty course is kept, otherwise the stem names it. */
  lemma UploadCourseChoice(path: string, course: Option<string>)
    ensures UploadCourse(path, course) != []
    ensures course.Some? && course.value != "" ==> UploadCourse(path, course) == course.value
    ensures course.None? || course.value == "" ==>
      UploadCourse(path, course)[..7] == "upload_" && UploadCourse(path, course)[7..] == Readings.Stem(Readings.Name(path))
  {
  }

  /**
   * A trailing '/' or "/." does not change the course an upload goes to: "notes/report.pdf/"
   * goes to "upload_report", as "notes/report.pdf" does.
   */
  lemma UploadCourseTrailing(folder: string, name: string)
    requires Readings.ListedName(name)
    ensures UploadCourse(folder + "/" + name + "/", None) == "upload_" + Readings.Stem(name)
    ensures UploadCourse(folder + "/" + name + "/.", None) == "upload_" + Readings.Stem(name)
  {
    Readings.NameIgnoresTrailing(folder + "/" + name);
    Readings.NameOfChild(folder, name);
  }

  /**
   * Seeding always targets the demo course: it gains the overview as its next document, and
   * every course other than the demo course is left as it was. A run for a new course other
   * than the demo course therefore starts with that course empty.
   */
  lemma SeedingTargetsDemo(lib: Store, overview: string)
    ensures var seeded := SetupExampleCourse(lib, overview);
      && Collection(seeded, DemoCourse) == Collection(lib, DemoCourse) + [Doc(|Collection(lib, DemoCourse)| + 1, DemoTitle, overview, DemoAuthor, DemoKind)]
      && forall c :: c != DemoCourse ==> Collection(seeded, c) == Collection(lib, c)
  {
  }

  /**
   * A run of `process_uploaded_file` keeps the chosen course and the file path, and when there
   * is no file to process, or processing fails, it keeps the (defaulted) instruction as input
   * and stores no chunks.
   */
  lemma UploadRunFields(gen: Prompt -> string, up: Upload.Uploads, lib: Store, overview: string,
                        path: string, course: Option<string>, customInput: string)
    ensures var (fin, _) := ProcessUploadedFile(gen, up, lib, overview, path, course, customInput);
      var cid := UploadCourse(path, course);
      var input := Instruction(customInput);
      && Get(fin, CourseId) == Text(cid)
      && Get(fin, FilePath) == Text(path)
      && (path == "" || !up.present(path) || Upload.ProcessFile(up, path).Err? ==>
            Get(fin, Input) == Text(input) && Get(fin, DocumentChunks) == Texts([]))
  {
    var cid := UploadCourse(path, course);
    var seeded := Seeded(lib, cid, overview);
    var input := Instruction(customInput);
    InitialRun(gen, up, seeded, input, Some(cid), Some(path));
    if path == "" || !up.present(path) || Upload.ProcessFile(up, path).Err? {
      UploadSkips(gen, up, seeded, input, cid, path);
    }
  }

  lemma UploadSkips(gen: Prompt -> string, up: Upload.Uploads, lib: Store, input: string, cid: string, path: string)
    requires path == "" || !up.present(path) || Upload.ProcessFile(up, path).Err?
    ensures var fin := Run(Stages(gen, up), InitialState(input, Some(cid), Some(path)), lib).0;
      Get(fin, Input) == Text(input) && Get(fin, DocumentChunks) == Texts([])
  {
    var st := InitialState(input, Some(cid), Some(path));
    assert Get(st, FilePath) == Text(path) && Get(st, Input) == Text(input);
    RunOutputs(gen, up, st, lib);
    ExtractorSkips(gen, up, st, lib);
  }

  /** Without a file to process, the extractor keeps the input and returns no chunks. */
  lemma ExtractorSkips(gen: Prompt -> string, up: Upload.Uploads, st: State, lib: Store)
    requires var path := Get(st, FilePath);
      !(TruthyText(path) && up.present(path.text) && Upload.ProcessFile(up, path.text).Ok?)
    ensures ExtractorRun(gen, up, st, lib).0[Input] == Get(st, Input)
    ensures ExtractorRun(gen, up, st, lib).0[DocumentChunks] == Texts([])
  {
    var course := Show(Get(st, CourseId));
    assert FileStep(up, Get(st, FilePath), Get(st, Input), course, lib) == FileOutcome([], Get(st, Input), lib);
  }

  /**
   * A processed upload is what the library holds for its course after the run: the search's
   * load does not undo it, because the record the upload wrote is exactly the list it left in
   * memory. With `AddChunksAppends`, the course's list is the list it had before the run
   * (after seeding, for `process_uploaded_file`) followed by one "Uploaded: name - Part i"
   * document per chunk.
   */
  lemma RunStoresUpload(gen: Prompt -> string, up: Upload.Uploads, st: State, lib: Store, course: string, path: string)
    requires Get(st, CourseId) == Text(course) && Get(st, FilePath) == Text(path)
    requires path != "" && up.present(path) && Upload.ProcessFile(up, path).Ok? && Upload.ProcessFile(up, path).value != []
    ensures var chunks := Upload.ProcessFile(up, path).value;
      Collection(Run(Stages(gen, up), st, lib).1, course) == Collection(AddChunks(lib, course, chunks, UploadTitle(path)), course)
  {
    RunLibrary(gen, up, st, lib);
    ExtractorStoresUpload(gen, up, st, lib, course, path);
  }

  /** When the file step processes a file into chunks, the course leaves the extractor with those chunks added. */
  lemma ExtractorStoresUpload(gen: Prompt -> string, up: Upload.Uploads, st: State, lib: Store, course: string, path: string)
    requires Get(st, CourseId) == Text(course) && Get(st, FilePath) == Text(path)
    requires path != "" && up.present(path) && Upload.ProcessFile(up, path).Ok? && Upload.ProcessFile(up, path).value != []
    ensures var chunks := Upload.ProcessFile(up, path).value;
      Collection(ExtractorRun(gen, up, st, lib).1, course) == Collection(AddChunks(lib, course, chunks, UploadTitle(path)), course)
  {
    var chunks := Upload.ProcessFile(up, path).value;
    FileStepAdds(up, path, Get(st, Input), course, lib);
    ExtractorLibrary(gen, up, st, lib);
    LoadAfterAddChunks(lib, course, chunks, UploadTitle(path));
  }

  /** A processed file's chunks are added to the course under the upload's title. */
  lemma FileStepAdds(up: Upload.Uploads, path: string, input: Value, course: string, lib: Store)
    requires path != "" && up.present(path) && Upload.ProcessFile(up, path).Ok?
    ensures FileStep(up, Text(path), input, course, lib).lib == AddChunks(lib, course, Upload.ProcessFile(up, path).value, UploadTitle(path))
  {
  }

  /** Loading a course right after chunks were added to it keeps what was added. */
  lemma LoadAfterAddChunks(lib: Store, course: string, chunks: seq<string>, title: string)
    requires chunks != []
    ensures Collection(Load(AddChunks(lib, course, chunks, title), course).1, course) == Collection(AddChunks(lib, course, chunks, title), course)
  {
    AddChunksFrame(lib, course, chunks, title);
    LoadKeepsWrittenCourse(AddChunks(lib, course, chunks, title), course);
  }

  /** Only the extractor touches the library: the run ends with the library the extractor left. */
  lemma RunLibrary(gen: Prompt -> string, up: Upload.Uploads, st: State, lib: Store)
    ensures Run(Stages(gen, up), st, lib).1 == ExtractorRun(gen, up, st, lib).1
  {
    RunThree(ExtractorStage(gen, up), ScaffoldStage(gen), QualityStage(gen), st, lib);
  }

  /** The library the extractor leaves is the one the file step left, after the search's load. */
  lemma ExtractorLibrary(gen: Prompt -> string, up: Upload.Uploads, st: State, lib: Store)
    ensures var course := Show(Get(st, CourseId));
      ExtractorRun(gen, up, st, lib).1 == Load(FileStep(up, Get(st, FilePath), Get(st, Input), course, lib).lib, course).1
  {
  }

  /** Loading a course whose record is its current list leaves that list as it is. */
  lemma LoadKeepsWrittenCourse(st: Store, course: string)
    requires course in st.disk && st.disk[course] == Record(Collection(st, course))
    ensures Collection(Load(st, course).1, course) == Collection(st, course)
  {
  }
}
