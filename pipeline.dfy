/**
 * The linear stage graphs every workflow compiles: a state of named fields, stages that each
 * read some fields and return an update for the fields they own, and a run that merges each
 * stage's update into the state before the next stage starts. What a stage does besides
 * returning its update (adding to a course library, a vector store) is threaded through the
 * run as a world value `W`.
 */
module Pipeline {

  /** The fields of the workflows' state records. */
  datatype Field =
    | Input | CourseId | FilePath | ExtractedInfo | RelevantContext | DocumentChunks
    | Questions | Prompts | Evaluation
    | ReadingA | LearningObjectives | ReadingB | AKeywords | AKeySentences | RagContext | Annotations

  /** A field's value: unset (`None`), a string, a list of strings, a string dictionary, or a list of them. */
  datatype Value =
    | Null
    | Text(text: string)
    | Texts(texts: seq<string>)
    | Dict(entries: map<string, string>)
    | Dicts(items: seq<map<string, string>>)

  type State = map<Field, Value>

  /** A field's current value; a field nobody set is `None`. */
  function Get(st: State, f: Field): Value {
    if f in st then st[f] else Null
  }

  /** A string field as an f-string shows it: `None` prints as "None". */
  function Show(v: Value): string {
    if v.Text? then v.text else "None"
  }

  /** A string field in a boolean context: `None` and "" are false. */
  predicate TruthyText(v: Value) {
    v.Text? && v.text != ""
  }

  /** A list-of-strings field; an unset one is empty. */
  function TextsOf(v: Value): seq<string> {
    if v.Texts? then v.texts else []
  }

  /** One stage: the fields it reads, the fields it owns, and what it returns for a state. */
  datatype Stage<!W> = Stage(uses: set<Field>, owns: set<Field>, run: (State, W) -> (map<Field, Value>, W))

  /** The stage's update names exactly the fields it owns. */
  ghost predicate WritesOwn<W(!new)>(s: Stage<W>) {
    forall st: State, w: W :: s.run(st, w).0.Keys == s.owns
  }

  predicate Agree(st1: State, st2: State, fs: set<Field>) {
    forall f :: f in fs ==> Get(st1, f) == Get(st2, f)
  }

  /** The stage's update and effect depend on nothing in the state but the fields it reads. */
  ghost predicate ReadsOnly<W(!new)>(s: Stage<W>) {
    forall st1: State, st2: State, w: W :: Agree(st1, st2, s.uses) ==> s.run(st1, w) == s.run(st2, w)
  }

  ghost predicate WellFormed<W(!new)>(stages: seq<Stage<W>>) {
    forall i :: 0 <= i < |stages| ==> WritesOwn(stages[i]) && ReadsOnly(stages[i])
  }

  /** Run the stages in order, merging each update into the state before the next stage. */
  function Run<W>(stages: seq<Stage<W>>, st: State, w: W): (State, W)
    decreases |stages|
  {
    if stages == [] then (st, w)
    else
      var (u, w') := stages[0].run(st, w);
      Run(stages[1..], st + u, w')
  }

  /** The fields some stage of the list owns. */
  function Owned<W>(stages: seq<Stage<W>>): set<Field>
    decreases |stages|
  {
    if stages == [] then {} else stages[0].owns + Owned(stages[1..])
  }

  /** No two stages own the same field. */
  predicate DisjointOwners<W>(stages: seq<Stage<W>>) {
    forall i, j :: 0 <= i < j < |stages| ==> stages[i].owns !! stages[j].owns
  }

  /**
   * Every stage reads only fields the run starts with or an earlier stage produced: the ordering
   * the whole design rests on.
   */
  predicate ReadsProduced<W>(stages: seq<Stage<W>>, initial: set<Field>)
    decreases |stages|
  {
    stages == [] ||
    (stages[0].uses <= initial && ReadsProduced(stages[1..], initial + stages[0].owns))
  }

  /** Fields are never dropped: a run only adds fields or overwrites them. */
  lemma {:induction false} RunKeepsFields<W>(stages: seq<Stage<W>>, st: State, w: W)
    ensures st.Keys <= Run(stages, st, w).0.Keys
    decreases |stages|
  {
    if stages != [] {
      var (u, w') := stages[0].run(st, w);
      RunKeepsFields(stages[1..], st + u, w');
    }
  }

  /** A field no stage owns ends the run with the value it started with. */
  lemma {:induction false} RunLeavesUnowned<W(!new)>(stages: seq<Stage<W>>, st: State, w: W, f: Field)
    requires WellFormed(stages) && f !in Owned(stages)
    ensures Get(Run(stages, st, w).0, f) == Get(st, f)
    decreases |stages|
  {
    if stages != [] {
      var (u, w') := stages[0].run(st, w);
      assert u.Keys == stages[0].owns;
      assert WellFormed(stages[1..]) by {
        forall i | 0 <= i < |stages[1..]| ensures WritesOwn(stages[1..][i]) && ReadsOnly(stages[1..][i]) {
          assert stages[1..][i] == stages[i + 1];
        }
      }
      RunLeavesUnowned(stages[1..], st + u, w', f);
    }
  }

  /** Running a list is running its first part and then the rest from where the first part left off. */
  lemma {:induction false} RunConcat<W>(xs: seq<Stage<W>>, ys: seq<Stage<W>>, st: State, w: W)
    ensures Run(xs + ys, st, w) == (var (st', w') := Run(xs, st, w); Run(ys, st', w'))
    decreases |xs|
  {
    if xs == [] {
      assert xs + ys == ys;
    } else {
      var (u, w') := xs[0].run(st, w);
      assert (xs + ys)[0] == xs[0];
      assert (xs + ys)[1..] == xs[1..] + ys;
      RunConcat(xs[1..], ys, st + u, w');
    }
  }

  /** A run of three stages, spelled out. */
  lemma RunThree<W>(a: Stage<W>, b: Stage<W>, c: Stage<W>, st: State, w: W)
    ensures Run([a, b, c], st, w) ==
      var (u1, w1) := a.run(st, w);
      var (u2, w2) := b.run(st + u1, w1);
      var (u3, w3) := c.run(st + u1 + u2, w2);
      (st + u1 + u2 + u3, w3)
  {
    var ss := [a, b, c];
    var (u1, w1) := a.run(st, w);
    var (u2, w2) := b.run(st + u1, w1);
    var (u3, w3) := c.run(st + u1 + u2, w2);
    assert ss[1..] == [b, c] && ss[1..][1..] == [c] && ss[1..][1..][1..] == [];
    assert Run(ss, st, w) == Run([b, c], st + u1, w1);
    assert Run([b, c], st + u1, w1) == Run([c], st + u1 + u2, w2);
    assert Run([c], st + u1 + u2, w2) == Run([], st + u1 + u2 + u3, w3);
  }

  lemma {:induction false} OwnedMembers<W>(stages: seq<Stage<W>>, f: Field)
    ensures f in Owned(stages) <==> exists i :: 0 <= i < |stages| && f in stages[i].owns
    decreases |stages|
  {
    if stages != [] {
      OwnedMembers(stages[1..], f);
      if f in Owned(stages[1..]) {
        var i :| 0 <= i < |stages[1..]| && f in stages[1..][i].owns;
        assert stages[i + 1] == stages[1..][i];
      }
      forall i | 1 <= i < |stages| && f in stages[i].owns ensures f in Owned(stages[1..]) {
        assert stages[1..][i - 1] == stages[i];
      }
    }
  }

  /**
   * The final value of a field is what its owner wrote: if stage `i` owns `f` and none of the
   * later stages does, `f` ends the run as stage `i` returned it from the state it was given.
   */
  lemma LastWriterWins<W(!new)>(stages: seq<Stage<W>>, st: State, w: W, i: nat, f: Field)
    requires WellFormed(stages) && i < |stages| && f in stages[i].owns
    requires forall j :: i < j < |stages| ==> f !in stages[j].owns
    ensures var (sti, wi) := Run(stages[..i], st, w);
      Get(Run(stages, st, w).0, f) == stages[i].run(sti, wi).0[f]
  {
    var (sti, wi) := Run(stages[..i], st, w);
    var (u, w') := stages[i].run(sti, wi);
    assert u.Keys == stages[i].owns;
    var rest := stages[i + 1..];
    assert stages == stages[..i] + ([stages[i]] + rest);
    RunConcat(stages[..i], [stages[i]] + rest, st, w);
    assert ([stages[i]] + rest)[1..] == rest;
    assert Run([stages[i]] + rest, sti, wi) == Run(rest, sti + u, w');
    assert WellFormed(rest) by {
      forall j | 0 <= j < |rest| ensures WritesOwn(rest[j]) && ReadsOnly(rest[j]) {
        assert rest[j] == stages[i + 1 + j];
      }
    }
    OwnedMembers(rest, f);
    forall j | 0 <= j < |rest| ensures f !in rest[j].owns {
      assert rest[j] == stages[i + 1 + j];
    }
    RunLeavesUnowned(rest, sti + u, w', f);
  }

  /**
   * A run whose stages read only what is already there is determined by its inputs: two
   * starting states that agree on the initial fields end with the same world and agree on the
   * initial fields and on every field a stage produced.
   */
  lemma {:induction false} RunDeterminedByInputs<W(!new)>(stages: seq<Stage<W>>, initial: set<Field>, st1: State, st2: State, w: W)
    requires WellFormed(stages) && ReadsProduced(stages, initial) && Agree(st1, st2, initial)
    ensures Run(stages, st1, w).1 == Run(stages, st2, w).1
    ensures Agree(Run(stages, st1, w).0, Run(stages, st2, w).0, initial + Owned(stages))
    decreases |stages|
  {
    if stages != [] {
      var s := stages[0];
      assert ReadsOnly(s) && WritesOwn(s);
      assert Agree(st1, st2, s.uses);
      var (u, w') := s.run(st1, w);
      assert s.run(st2, w) == (u, w');
      var next := initial + s.owns;
      assert Agree(st1 + u, st2 + u, next) by {
        forall f | f in next ensures Get(st1 + u, f) == Get(st2 + u, f) {
          if f !in u.Keys {
            assert Get(st1, f) == Get(st2, f);
          }
        }
      }
      assert WellFormed(stages[1..]) by {
        forall i | 0 <= i < |stages[1..]| ensures WritesOwn(stages[1..][i]) && ReadsOnly(stages[1..][i]) {
          assert stages[1..][i] == stages[i + 1];
        }
      }
      RunDeterminedByInputs(stages[1..], next, st1 + u, st2 + u, w');
      assert initial + Owned(stages) == next + Owned(stages[1..]);
    }
  }
}
