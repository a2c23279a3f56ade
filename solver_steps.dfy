/**
 * The static decision table of the linear-dependence walkthrough and the lookups
 * the engine performs on it (Array.prototype.find / findIndex).
 *
 * Optional string fields of the source (`next`, `feedback`, `workArea`) are plain
 * strings here, with "" standing for "absent": the engine only ever tests them for
 * truthiness, and an absent field and an empty string are both falsy.
 * The display texts (questions, option labels, hints, solutions, work areas,
 * feedback) are kept as non-empty tags built from their kind and their owner's id;
 * their wording plays no part in the engine's behaviour.
 */
module SolverSteps {
  import opened Optional

  /** The two closures the table attaches to options, as a tagged variant. */
  datatype Action = ShowSolutionMap | Restart

  /** One selectable answer of a step (the source's `Option` interface). */
  datatype StepOption = StepOption(
    id: string,
    text: string,
    next: string,
    feedback: string,
    isCorrect: bool,
    action: Option<Action>)

  datatype Step = Step(
    id: string,
    question: string,
    options: seq<StepOption>,
    hint: string,
    solution: string,
    workArea: string)

  /** One recorded choice: the step the user was on and the id of the option chosen. */
  datatype PathItem = PathItem(stepId: string, option: string)

  /** One entry of the growing full solution; stepNumber is the step index at capture. */
  datatype SolutionItem = SolutionItem(stepId: string, solution: string, stepNumber: nat)

  /** The opaque stand-in for one of the table's display texts: its kind and its owner's id. */
  function Text(kind: string, owner: string): (t: string)
    ensures t != ""
  {
    kind + ":" + owner
  }

  /** A step; only some steps carry a work area. */
  function MakeStep(id: string, options: seq<StepOption>, hasWorkArea: bool): Step {
    Step(id, Text("question", id), options, Text("hint", id), Text("solution", id),
         if hasWorkArea then Text("workArea", id) else "")
  }

  /** A correct option that moves to another step. */
  function Advance(id: string, next: string): StepOption {
    StepOption(id, Text("text", id), next, "", true, None)
  }

  /** A wrong turn: explanatory feedback plus a `next` that the engine never follows. */
  function Retry(id: string, next: string): StepOption {
    StepOption(id, Text("text", id), next, Text("feedback", id), false, None)
  }

  /** An option that runs an action instead of moving. */
  function Act(id: string, action: Action): StepOption {
    StepOption(id, Text("text", id), "", "", false, Some(action))
  }

  const StartStep: Step :=
    MakeStep("start",
      [ Advance("check-definition", "setup-equations"),
        Retry("check-rank", "start"),
        Retry("check-determinant", "start"),
        Retry("check-by-inspection", "start") ],
      false)

  const SetupEquationsStep: Step :=
    MakeStep("setup-equations",
      [ Advance("system-equations", "equation-approach"),
        Advance("matrix-approach", "matrix-formation"),
        Retry("try-eliminating", "setup-equations") ],
      false)

  const EquationApproachStep: Step :=
    MakeStep("equation-approach",
      [ Advance("form-augmented", "augmented-matrix"),
        Retry("solve-directly", "equation-approach"),
        Retry("check-consistency", "equation-approach") ],
      true)

  const MatrixFormationStep: Step :=
    MakeStep("matrix-formation",
      [ Retry("vectors-as-columns", "setup-equations"),
        Retry("vectors-as-rows", "setup-equations"),
        Advance("coefficient-matrix", "augmented-matrix") ],
      false)

  const AugmentedMatrixStep: Step :=
    MakeStep("augmented-matrix",
      [ Retry("correct-matrix", "augmented-matrix"),
        Advance("coefficient-rows", "row-reduction"),
        Retry("vectors-components", "augmented-matrix") ],
      false)

  const RowReductionStep: Step :=
    MakeStep("row-reduction",
      [ Advance("rref", "analyze-rank"),
        Retry("determinant", "row-reduction"),
        Advance("just-pivots", "analyze-rank") ],
      true)

  const AnalyzeRankStep: Step :=
    MakeStep("analyze-rank",
      [ Advance("compare-rank-vectors", "interpret-results"),
        Advance("check-free-variables", "interpret-results"),
        Advance("look-for-zero-rows", "interpret-results") ],
      true)

  const InterpretResultsStep: Step :=
    MakeStep("interpret-results",
      [ Advance("independent", "conclusion"),
        Retry("dependent", "interpret-results"),
        Retry("cant-tell", "interpret-results") ],
      true)

  const ConclusionStep: Step :=
    MakeStep("conclusion",
      [ Advance("rank-explanation", "complete"),
        Advance("geometric-explanation", "complete"),
        Advance("system-explanation", "complete") ],
      false)

  const CompleteStep: Step :=
    MakeStep("complete",
      [ Act("show-map", ShowSolutionMap),
        Act("restart", Restart) ],
      false)

  /** The decision table, in presentation order. */
  const Steps: seq<Step> := [
    StartStep,
    SetupEquationsStep,
    EquationApproachStep,
    MatrixFormationStep,
    AugmentedMatrixStep,
    RowReductionStep,
    AnalyzeRankStep,
    InterpretResultsStep,
    ConclusionStep,
    CompleteStep]

  /** Array.prototype.findIndex: the first index whose element satisfies p, or -1. */
  function FindIndex<T>(s: seq<T>, p: T -> bool): (r: int)
    ensures -1 <= r < |s|
    ensures r >= 0 ==> p(s[r]) && forall j :: 0 <= j < r ==> !p(s[j])
    ensures r == -1 <==> forall j :: 0 <= j < |s| ==> !p(s[j])
  {
    if s == [] then -1
    else if p(s[0]) then 0
    else
      var k := FindIndex(s[1..], p);
      if k < 0 then -1 else k + 1
  }

  /** The index where findIndex stops is the first one that satisfies p. */
  lemma FindIndexAt<T>(s: seq<T>, p: T -> bool, k: nat)
    requires k < |s| && p(s[k])
    requires forall j :: 0 <= j < k ==> !p(s[j])
    ensures FindIndex(s, p) == k
  {
  }

  /** The index of the step with the given id (`steps.findIndex(s => s.id === id)`). */
  function StepIndex(t: seq<Step>, id: string): int {
    FindIndex(t, (st: Step) => st.id == id)
  }

  /** `findStep`: the step with the given id (`steps.find(s => s.id === id)`). */
  function FindStep(t: seq<Step>, id: string): (r: Option<Step>)
    ensures r.Some? <==> StepIndex(t, id) >= 0
    ensures r.Some? ==> r.value == t[StepIndex(t, id)] && r.value.id == id
  {
    var k := StepIndex(t, id);
    if k < 0 then None else Some(t[k])
  }

  /** `options.find(o => o.id === id)`. */
  function FindOption(options: seq<StepOption>, id: string): (r: Option<StepOption>)
    ensures r.Some? ==> r.value.id == id && r.value in options
    ensures r.None? <==> forall o :: o in options ==> o.id != id
  {
    var k := FindIndex(options, (o: StepOption) => o.id == id);
    if k < 0 then None else Some(options[k])
  }

  // ----- Well-formedness of a step table -----

  /** No two steps share an id. */
  ghost predicate UniqueStepIds(t: seq<Step>) {
    forall i, j :: 0 <= i < j < |t| ==> t[i].id != t[j].id
  }

  /** Within each step, no two options share an id. */
  ghost predicate UniqueOptionIds(t: seq<Step>) {
    forall i :: 0 <= i < |t| ==> DistinctOptionIds(t[i].options)
  }

  ghost predicate DistinctOptionIds(options: seq<StepOption>) {
    forall a, b :: 0 <= a < b < |options| ==> options[a].id != options[b].id
  }

  /** The ids of all steps, in table order. */
  function StepIds(t: seq<Step>): (ids: seq<string>)
    ensures |ids| == |t|
    ensures forall j :: 0 <= j < |t| ==> ids[j] == t[j].id
  {
    seq(|t|, j requires 0 <= j < |t| => t[j].id)
  }

  /** Every `next` that is present names an existing step. */
  ghost predicate ClosedGraph(t: seq<Step>) {
    forall i, k :: 0 <= i < |t| && 0 <= k < |t[i].options| && t[i].options[k].next != "" ==>
      t[i].options[k].next in StepIds(t)
  }

  /** An option with neither feedback nor action is a correct option with a `next`. */
  ghost predicate PlainOptionsAdvance(t: seq<Step>) {
    forall i, k :: 0 <= i < |t| && 0 <= k < |t[i].options| ==>
      (t[i].options[k].action.None? && t[i].options[k].feedback == "" ==>
         t[i].options[k].isCorrect && t[i].options[k].next != "")
  }

  /** No option that advances leads back to the first step. */
  ghost predicate StartNotReentered(t: seq<Step>) {
    |t| > 0 &&
    forall i, k :: 0 <= i < |t| && 0 <= k < |t[i].options| ==>
      (t[i].options[k].action.None? && t[i].options[k].feedback == "" ==>
         t[i].options[k].next != t[0].id)
  }

  /** Every step carries a non-empty solution text. */
  ghost predicate SolutionsPresent(t: seq<Step>) {
    forall i :: 0 <= i < |t| ==> t[i].solution != ""
  }

  /** What the engine relies on in its step table. */
  ghost predicate WellFormed(t: seq<Step>) {
    |t| > 0 && UniqueStepIds(t) && UniqueOptionIds(t) && ClosedGraph(t) &&
    PlainOptionsAdvance(t) && StartNotReentered(t) && SolutionsPresent(t)
  }

  lemma TableStepIdsUnique() ensures UniqueStepIds(Steps) {}
  lemma OpeningOptionIdsDistinct()
    ensures DistinctOptionIds(StartStep.options) && DistinctOptionIds(SetupEquationsStep.options)
  {
  }

  lemma ApproachOptionIdsDistinct()
    ensures DistinctOptionIds(EquationApproachStep.options) && DistinctOptionIds(MatrixFormationStep.options)
  {
  }

  lemma ReductionOptionIdsDistinct()
    ensures DistinctOptionIds(AugmentedMatrixStep.options) && DistinctOptionIds(RowReductionStep.options)
  {
  }

  lemma RankOptionIdsDistinct()
    ensures DistinctOptionIds(AnalyzeRankStep.options) && DistinctOptionIds(InterpretResultsStep.options)
  {
  }

  lemma ClosingOptionIdsDistinct()
    ensures DistinctOptionIds(ConclusionStep.options) && DistinctOptionIds(CompleteStep.options)
  {
  }

  lemma TableOptionIdsUnique()
    ensures UniqueOptionIds(Steps)
  {
    OpeningOptionIdsDistinct();
    ApproachOptionIdsDistinct();
    ReductionOptionIdsDistinct();
    RankOptionIdsDistinct();
    ClosingOptionIdsDistinct();
  }

  lemma TablePlainOptionsAdvance() ensures PlainOptionsAdvance(Steps) {}
  lemma TableStartNotReentered() ensures StartNotReentered(Steps) {}
  lemma TableSolutionsPresent() ensures SolutionsPresent(Steps) {}

  lemma TableGraphClosed()
    ensures ClosedGraph(Steps)
  {
    assert StepIds(Steps) == ["start", "setup-equations", "equation-approach", "matrix-formation", "augmented-matrix",
                              "row-reduction", "analyze-rank", "interpret-results", "conclusion", "complete"];
  }

  /** The walkthrough's table is well formed: ten steps, "start" first. */
  lemma TableWellFormed()
    ensures |Steps| == 10 && Steps[0].id == "start"
    ensures WellFormed(Steps)
  {
    TableStepIdsUnique();
    TableOptionIdsUnique();
    TableGraphClosed();
    TablePlainOptionsAdvance();
    TableStartNotReentered();
    TableSolutionsPresent();
  }

  /** Looking up the id of a table step finds that very step. */
  lemma LookupOwnId(t: seq<Step>, i: nat)
    requires UniqueStepIds(t) && i < |t|
    ensures StepIndex(t, t[i].id) == i
    ensures FindStep(t, t[i].id) == Some(t[i])
  {
    FindIndexAt(t, (st: Step) => st.id == t[i].id, i);
  }

  /** Looking up the id of one of a step's options finds that very option. */
  lemma LookupOwnOption(t: seq<Step>, i: nat, k: nat)
    requires UniqueOptionIds(t) && i < |t| && k < |t[i].options|
    ensures FindOption(t[i].options, t[i].options[k].id) == Some(t[i].options[k])
  {
    FindIndexAt(t[i].options, (o: StepOption) => o.id == t[i].options[k].id, k);
  }

  /** An option that neither acts nor gives feedback leads to an existing step other than the first. */
  lemma PlainOptionTarget(t: seq<Step>, i: nat, k: nat)
    requires WellFormed(t)
    requires i < |t| && k < |t[i].options|
    requires t[i].options[k].action.None? && t[i].options[k].feedback == ""
    ensures t[i].options[k].isCorrect && t[i].options[k].next != ""
    ensures 0 < StepIndex(t, t[i].options[k].next)
  {
    var next := t[i].options[k].next;
    assert next in StepIds(t);
    var j :| 0 <= j < |t| && StepIds(t)[j] == next;
    assert StepIndex(t, next) >= 0;
  }
}
