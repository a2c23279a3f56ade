/**
 * The LinearDependenceSolver component: its state hooks as fields, its handlers as methods
 * that update those fields in the order the source does, each proved to produce the state
 * the corresponding SolverEngine function describes.
 */
module SolverComponent {
  import opened Optional
  import opened SolverSteps
  import opened SolverEngine

  class LinearDependenceSolver {
    const steps: seq<Step>
    var currentStep: nat
    var path: seq<PathItem>
    var showHint: bool
    var hintsUsed: nat
    var feedback: string
    var workingArea: string
    var showSolutionMap: bool
    var showStepSolution: bool
    var fullSolution: seq<SolutionItem>

    /** The hooks as one value. */
    ghost function State(): SolverState
      reads this
    {
      SolverState(currentStep, path, showHint, hintsUsed, feedback, workingArea,
                  showSolutionMap, showStepSolution, fullSolution)
    }

    /** What holds between user events, once the full-solution effect has run. */
    ghost predicate Valid()
      reads this
    {
      Settled(steps, State())
    }

    constructor(table: seq<Step>)
      requires WellFormed(table)
      ensures steps == table && State() == Initial && Valid()
    {
      steps := table;
      currentStep := 0;
      path := [];
      showHint := false;
      hintsUsed := 0;
      feedback := "";
      workingArea := "";
      showSolutionMap := false;
      showStepSolution := false;
      fullSolution := [];
      InitialSettled(table);
    }

    /** The restart action attached to the last step. */
    method RestartAction()
      modifies this
      ensures State() == RunAction(old(State()), Restart)
    {
      currentStep := 0;
      path := [];
      workingArea := "";
      feedback := "";
      showHint := false;
      hintsUsed := 0;
      showStepSolution := false;
      fullSolution := [];
    }

    /** `handleSelect`. */
    method HandleSelect(option: StepOption)
      requires currentStep < |steps|
      modifies this
      ensures State() == Select(steps, old(State()), option)
    {
      if option.action.Some? {
        match option.action.value {
          case ShowSolutionMap => showSolutionMap := true;
          case Restart => RestartAction();
        }
        return;
      }
      if option.feedback != "" {
        feedback := option.feedback;
        return;
      }
      path := path + [PathItem(steps[currentStep].id, option.id)];
      feedback := "";
      if option.isCorrect {
        showStepSolution := true;
      } else {
        showStepSolution := false;
      }
      if option.next != "" {
        var nextStep := FindStep(steps, option.next);
        var nextStepIndex := StepIndex(steps, option.next);
        if nextStepIndex >= 0 {
          currentStep := nextStepIndex;
          if nextStep.Some? && nextStep.value.workArea != "" {
            workingArea := nextStep.value.workArea;
          }
        }
      }
    }

    /** The lookups `goBackStep` makes on the last remaining path entry: the step it names, the
        option chosen there and the index of the step that option leads to. */
    method ResolveEntry(item: PathItem) returns (r: Option<Resolved>)
      ensures r == Resolve(steps, item)
    {
      var previousStep := FindStep(steps, item.stepId);
      if previousStep.None? {
        return None;
      }
      var previousOption := FindOption(previousStep.value.options, item.option);
      if previousOption.None? || previousOption.value.next == "" {
        return None;
      }
      var targetStepIndex := StepIndex(steps, previousOption.value.next);
      if targetStepIndex < 0 {
        return None;
      }
      r := Some(Resolved(targetStepIndex, previousOption.value));
    }

    /** `goBackStep`. */
    method GoBackStep()
      modifies this
      ensures State() == GoBack(steps, old(State()))
    {
      if |path| == 0 {
        return;
      }
      ghost var before := State();
      var newPath := path[..|path| - 1];
      if |newPath| == 0 {
        GoBackEmptied(steps, before);
        path, currentStep, workingArea, feedback, showStepSolution := newPath, 0, "", "", false;
        return;
      }
      var last := path[|path| - 2];
      var resolved := ResolveEntry(last);
      if resolved.None? {
        GoBackUnresolved(steps, before, last);
        path := newPath;
        return;
      }
      GoBackResolved(steps, before, last, resolved.value);
      var targetStepIndex := resolved.value.index;
      var targetStep := steps[targetStepIndex];
      var newWorkingArea := if targetStep.workArea != "" then targetStep.workArea else "";
      path, currentStep, workingArea, feedback, showStepSolution :=
        newPath, targetStepIndex, newWorkingArea, "", resolved.value.option.isCorrect;
    }

    /** `toggleHint`. */
    method ToggleHint()
      modifies this
      ensures State() == SolverEngine.ToggleHint(old(State()))
    {
      if !showHint {
        hintsUsed := hintsUsed + 1;
      }
      showHint := !showHint;
    }

    /** The solution map's close button. */
    method CloseSolutionMap()
      modifies this
      ensures State() == SolverEngine.CloseSolutionMap(old(State()))
    {
      showSolutionMap := false;
    }

    /** The effect that records the current step's solution while the step solution is shown. */
    method SyncFullSolution()
      requires currentStep < |steps|
      modifies this
      ensures State() == SolverEngine.SyncFullSolution(steps, old(State()))
    {
      var step := steps[currentStep];
      if showStepSolution && step.solution != "" {
        if !HasSolutionFor(fullSolution, step.id) {
          fullSolution := fullSolution + [SolutionItem(step.id, step.solution, currentStep)];
        }
      }
    }

    /** One user event: its handler, then the effect. Every event the rendered component offers
        keeps the component valid. */
    method OnEvent(e: Event)
      requires Valid() && Enabled(steps, State(), e)
      modifies this
      ensures State() == Dispatch(steps, old(State()), e)
      ensures Valid()
    {
      DispatchSettled(steps, State(), e);
      match e {
        case Choose(o) => HandleSelect(o);
        case Back => GoBackStep();
        case Hint => ToggleHint();
        case CloseMap => CloseSolutionMap();
      }
      SyncFullSolution();
    }
  }
}
