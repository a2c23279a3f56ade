/**
 * Walks through the walkthrough's own step table: the engine lemmas instantiated with
 * SolverSteps.Steps and concrete choices.
 */
module SolverScenarios {
  import opened Optional
  import opened SolverSteps
  import opened SolverEngine

  /** The full-solution entry the effect records on reaching step j. */
  function TraceItem(j: nat): SolutionItem
    requires j < |Steps|
  {
    SolutionItem(Steps[j].id, Steps[j].solution, j)
  }

  /** Scenario: the first correct answer records one choice, moves to the second step and
      records that step's solution. */
  lemma FirstCorrectChoice()
    ensures var r := Dispatch(Steps, Initial, Choose(StartStep.options[0]));
      && r.currentStep == 1
      && r.path == [PathItem("start", "check-definition")]
      && r.fullSolution == [TraceItem(1)]
      && r.showStepSolution
      && Settled(Steps, r)
  {
    TableWellFormed();
    InitialSettled(Steps);
    StepForward(Steps, Initial, StartStep.options[0], 1);
  }

  /** Scenario: a wrong answer on the first step only shows its feedback; the path, the step and
      the full solution stay as they were. */
  lemma WrongFirstChoice()
    ensures Dispatch(Steps, Initial, Choose(StartStep.options[1])) ==
            Initial.(feedback := Text("feedback", "check-rank"))
  {
    SelectFeedback(Steps, Initial, StartStep.options[1]);
  }

  /** Scenario: going back after the first correct answer returns to the first step and keeps
      the recorded solution. */
  lemma BackAfterFirstChoice()
    ensures var r := Dispatch(Steps, Dispatch(Steps, Initial, Choose(StartStep.options[0])), Back);
      && r.currentStep == 0
      && r.path == []
      && r.fullSolution == [TraceItem(1)]
      && !r.showStepSolution
  {
    FirstCorrectChoice();
    var s := Dispatch(Steps, Initial, Choose(StartStep.options[0]));
    BackKeepsTrace(Steps, s);
    GoBackEffect(Steps, s);
  }

  /** The shortest correct route: by the definition, through the system of equations, the
      augmented matrix, row reduction, rank, interpretation and conclusion. */
  const CanonicalChoices: seq<StepOption> := [
    StartStep.options[0],
    SetupEquationsStep.options[0],
    EquationApproachStep.options[0],
    AugmentedMatrixStep.options[1],
    RowReductionStep.options[0],
    AnalyzeRankStep.options[0],
    InterpretResultsStep.options[0],
    ConclusionStep.options[0]]

  /** The steps that route reaches. */
  const CanonicalTargets: seq<nat> := [1, 2, 4, 5, 6, 7, 8, 9]

  /** Each choice of the route names the step it reaches. */
  lemma CanonicalTargetsNamed()
    ensures |CanonicalChoices| == |CanonicalTargets|
    ensures forall k :: 0 <= k < |CanonicalTargets| ==>
      CanonicalTargets[k] < |Steps| && Steps[CanonicalTargets[k]].id == CanonicalChoices[k].next
  {
  }

  /** Each choice of the route is a plain option offered on the step the previous choice reached. */
  lemma CanonicalChoicesOffered()
    ensures forall k :: 0 <= k < |CanonicalChoices| ==>
      CanonicalChoices[k].action.None? && CanonicalChoices[k].feedback == ""
    ensures CanonicalChoices[0] in Steps[0].options
    ensures forall k :: 0 < k < |CanonicalChoices| ==> CanonicalChoices[k] in Steps[CanonicalTargets[k - 1]].options
  {
  }

  lemma CanonicalIsRoute()
    ensures IsRoute(Steps, 0, CanonicalChoices, CanonicalTargets)
  {
    CanonicalTargetsNamed();
    CanonicalChoicesOffered();
  }

  lemma CanonicalTargetsDistinct()
    ensures forall k, l :: 0 <= k < l < |CanonicalTargets| ==> CanonicalTargets[k] != CanonicalTargets[l]
  {
  }

  /** Scenario: any eight choices that reach the steps of the canonical route, from the first
      step of the walkthrough's table, end on the completion step with eight path entries and
      the solutions of the eight steps reached recorded in the order reached. CanonicalIsRoute
      shows that CanonicalChoices is such a sequence of choices. */
  lemma CanonicalWalk(t: seq<Step>, choices: seq<StepOption>)
    requires t == Steps && IsRoute(t, 0, choices, CanonicalTargets)
    ensures var r := RunChoices(t, Initial, choices);
      && Settled(t, r)
      && r.currentStep == 9 && t[r.currentStep].id == "complete"
      && |r.path| == 8
      && r.fullSolution == Traced(t, CanonicalTargets)
  {
    assert Settled(t, Initial) by {
      TableWellFormed();
      InitialSettled(t);
    }
    CanonicalTargetsDistinct();
    RunRoute(t, Initial, choices, CanonicalTargets);
    RunRouteTrace(t, Initial, choices, CanonicalTargets);
  }
}
