/**
 * The walkthrough engine of the linear-dependence solver as a pure state machine.
 *
 * Every handler of the component is a function from the state before the event
 * to the state after it; the component class in solver_component.dfy performs
 * the same updates on its fields and is proved against these functions.
 * The engine is stated over any step table `t`; the lemmas that need the table's
 * shape assume WellFormed(t), which SolverSteps.TableWellFormed proves for the
 * walkthrough's own table.
 */
module SolverEngine {
  import opened Optional
  import opened SolverSteps

  /** The component's nine state hooks. */
  datatype SolverState = SolverState(
    currentStep: nat,
    path: seq<PathItem>,
    showHint: bool,
    hintsUsed: nat,
    feedback: string,
    workingArea: string,
    showSolutionMap: bool,
    showStepSolution: bool,
    fullSolution: seq<SolutionItem>)

  /** The initial value of every hook. */
  const Initial: SolverState := SolverState(0, [], false, 0, "", "", false, false, [])

  // ===== Handlers =====

  /** The closures attached to the options of the last step. */
  function RunAction(s: SolverState, a: Action): SolverState {
    match a
    case ShowSolutionMap => s.(showSolutionMap := true)
    case Restart =>
      s.(currentStep := 0, path := [], workingArea := "", feedback := "", showHint := false,
         hintsUsed := 0, showStepSolution := false, fullSolution := [])
  }

  /** `handleSelect`: an action option runs its action; a feedback option only shows its feedback;
      any other option records the choice and moves to the step its `next` names. */
  function Select(t: seq<Step>, s: SolverState, o: StepOption): SolverState
    requires s.currentStep < |t|
  {
    if o.action.Some? then RunAction(s, o.action.value)
    else if o.feedback != "" then s.(feedback := o.feedback)
    else
      var recorded := s.(path := s.path + [PathItem(t[s.currentStep].id, o.id)],
                         feedback := "", showStepSolution := o.isCorrect);
      if o.next == "" then recorded
      else
        var nextStep := FindStep(t, o.next);
        var nextIndex := StepIndex(t, o.next);
        if nextIndex < 0 then recorded
        else
          recorded.(currentStep := nextIndex,
                    workingArea := if nextStep.Some? && nextStep.value.workArea != ""
                                   then nextStep.value.workArea else s.workingArea)
  }

  /** Where a recorded choice led: the index of the step its option's `next` names, and the option. */
  datatype Resolved = Resolved(index: nat, option: StepOption)

  /** The lookups `goBackStep` performs on a path entry; None where one of them fails. */
  function Resolve(t: seq<Step>, item: PathItem): (r: Option<Resolved>)
    ensures r.Some? ==> r.value.index < |t| && t[r.value.index].id == r.value.option.next
  {
    match FindStep(t, item.stepId)
    case None => None
    case Some(previousStep) =>
      match FindOption(previousStep.options, item.option)
      case None => None
      case Some(previousOption) =>
        if previousOption.next == "" then None
        else
          var target := StepIndex(t, previousOption.next);
          if target < 0 then None else Some(Resolved(target, previousOption))
  }

  /** `goBackStep`: drop the last choice and return to where the choice before it led. */
  function GoBack(t: seq<Step>, s: SolverState): SolverState {
    if s.path == [] then s
    else
      var newPath := s.path[..|s.path| - 1];
      if newPath == [] then
        s.(path := newPath, currentStep := 0, workingArea := "", feedback := "", showStepSolution := false)
      else
        match Resolve(t, newPath[|newPath| - 1])
        case None => s.(path := newPath)
        case Some(r) =>
          // an absent work area is "", which is also what the source writes in that case
          s.(path := newPath, currentStep := r.index, workingArea := t[r.index].workArea,
             feedback := "", showStepSolution := r.option.isCorrect)
  }

  /** `goBackStep` removing the only choice returns to the first step. */
  lemma GoBackEmptied(t: seq<Step>, s: SolverState)
    requires |s.path| == 1
    ensures GoBack(t, s) == s.(path := [], currentStep := 0, workingArea := "", feedback := "", showStepSolution := false)
  {
  }

  /** `goBackStep` whose lookups fail only drops the last choice. */
  lemma GoBackUnresolved(t: seq<Step>, s: SolverState, last: PathItem)
    requires |s.path| > 1 && last == s.path[|s.path| - 2] && Resolve(t, last).None?
    ensures GoBack(t, s) == s.(path := s.path[..|s.path| - 1])
  {
  }

  /** `goBackStep` whose lookups succeed returns to the step the remaining last choice led to. */
  lemma GoBackResolved(t: seq<Step>, s: SolverState, last: PathItem, r: Resolved)
    requires |s.path| > 1 && last == s.path[|s.path| - 2] && Resolve(t, last) == Some(r)
    ensures GoBack(t, s) == s.(path := s.path[..|s.path| - 1], currentStep := r.index, workingArea := t[r.index].workArea,
                               feedback := "", showStepSolution := r.option.isCorrect)
  {
  }

  /** `toggleHint`. */
  function ToggleHint(s: SolverState): SolverState {
    s.(hintsUsed := if !s.showHint then s.hintsUsed + 1 else s.hintsUsed, showHint := !s.showHint)
  }

  /** The solution map's close button. */
  function CloseSolutionMap(s: SolverState): SolverState {
    s.(showSolutionMap := false)
  }

  /** `prevSolution.some(item => item.stepId === id)`. */
  predicate HasSolutionFor(items: seq<SolutionItem>, id: string) {
    exists i :: 0 <= i < |items| && items[i].stepId == id
  }

  /** The effect that runs after every render: while the step solution is shown, the current
      step's solution joins the full solution unless that step is already there. */
  function SyncFullSolution(t: seq<Step>, s: SolverState): SolverState
    requires s.currentStep < |t|
  {
    var step := t[s.currentStep];
    if s.showStepSolution && step.solution != "" && !HasSolutionFor(s.fullSolution, step.id) then
      s.(fullSolution := s.fullSolution + [SolutionItem(step.id, step.solution, s.currentStep)])
    else s
  }

  /** The user inputs the component reacts to. */
  datatype Event = Choose(option: StepOption) | Back | Hint | CloseMap

  /** What the rendered component lets the user do: pick one of the current step's options,
      and go back only while the back button is shown (currentStep > 0). */
  predicate Enabled(t: seq<Step>, s: SolverState, e: Event)
    requires s.currentStep < |t|
  {
    match e
    case Choose(o) => o in t[s.currentStep].options
    case Back => s.currentStep > 0
    case _ => true
  }

  function Handle(t: seq<Step>, s: SolverState, e: Event): (r: SolverState)
    requires 0 < |t| && s.currentStep < |t|
    ensures r.currentStep < |t|
  {
    match e
    case Choose(o) => Select(t, s, o)
    case Back => GoBack(t, s)
    case Hint => ToggleHint(s)
    case CloseMap => CloseSolutionMap(s)
  }

  /** One event followed by the render and the full-solution effect. */
  function Dispatch(t: seq<Step>, s: SolverState, e: Event): (r: SolverState)
    requires 0 < |t| && s.currentStep < |t|
    ensures r.currentStep < |t|
  {
    SyncFullSolution(t, Handle(t, s, e))
  }

  // ===== Invariants =====

  function Last<T>(s: seq<T>): T
    requires s != []
  {
    s[|s| - 1]
  }

  /** A recorded choice resolves to a correct option leading past the first step. */
  ghost predicate Advances(t: seq<Step>, item: PathItem) {
    Resolve(t, item).Some? && Resolve(t, item).value.option.isCorrect && Resolve(t, item).value.index > 0
  }

  /** Every recorded choice advances, the first was made on the first step, and each later
      choice was made on the step the previous one led to. */
  ghost predicate PathIsWalk(t: seq<Step>, path: seq<PathItem>) {
    (forall i :: 0 <= i < |path| ==> Advances(t, path[i])) &&
    (path != [] ==> 0 < |t| && path[0].stepId == t[0].id) &&
    (forall i :: 0 <= i < |path| - 1 ==>
       Resolve(t, path[i]).Some? && path[i + 1].stepId == t[Resolve(t, path[i]).value.index].id)
  }

  /** No two entries of the full solution belong to the same step. */
  predicate NoDuplicateSteps(items: seq<SolutionItem>) {
    forall i, j :: 0 <= i < j < |items| ==> items[i].stepId != items[j].stepId
  }

  /** Each entry of the full solution is the solution of the step its stepNumber indexes. */
  ghost predicate SolutionItemsWellFormed(t: seq<Step>, items: seq<SolutionItem>) {
    (forall i :: 0 <= i < |items| ==>
       items[i].stepNumber < |t| && items[i].stepId == t[items[i].stepNumber].id &&
       items[i].solution == t[items[i].stepNumber].solution) &&
    NoDuplicateSteps(items)
  }

  /** What holds between any two updates. */
  ghost predicate Consistent(t: seq<Step>, s: SolverState) {
    WellFormed(t) &&
    s.currentStep < |t| &&
    PathIsWalk(t, s.path) &&
    (s.path == [] <==> s.currentStep == 0) &&
    (s.path != [] ==> Resolve(t, Last(s.path)).Some? && Resolve(t, Last(s.path)).value.index == s.currentStep) &&
    s.showStepSolution == (s.path != []) &&
    (s.showHint ==> s.hintsUsed > 0) &&
    SolutionItemsWellFormed(t, s.fullSolution)
  }

  /** Every step one of the recorded choices led to has its solution among the items. */
  ghost predicate TargetsRecorded(t: seq<Step>, path: seq<PathItem>, items: seq<SolutionItem>) {
    forall i :: 0 <= i < |path| ==>
      Resolve(t, path[i]).Some? && HasSolutionFor(items, t[Resolve(t, path[i]).value.index].id)
  }

  /** Between a transition and the effect that follows it: every step a recorded choice led to,
      except the current one, has its solution recorded. */
  ghost predicate Covered(t: seq<Step>, s: SolverState) {
    Consistent(t, s) && (s.path != [] ==> TargetsRecorded(t, s.path[..|s.path| - 1], s.fullSolution))
  }

  /** What holds once the full-solution effect has run: every step a recorded choice led to
      has its solution recorded. */
  ghost predicate Settled(t: seq<Step>, s: SolverState) {
    Consistent(t, s) && TargetsRecorded(t, s.path, s.fullSolution)
  }

  // ===== Lemmas about single handlers =====

  lemma InitialSettled(t: seq<Step>)
    requires WellFormed(t)
    ensures Settled(t, Initial)
  {
  }

  /** An action option runs only its action: show-map raises one flag, restart resets every hook
      except showSolutionMap. */
  lemma SelectAction(t: seq<Step>, s: SolverState, o: StepOption)
    requires s.currentStep < |t| && o.action.Some?
    ensures o.action.value == ShowSolutionMap ==> Select(t, s, o) == s.(showSolutionMap := true)
    ensures o.action.value == Restart ==> Select(t, s, o) == Initial.(showSolutionMap := s.showSolutionMap)
  {
  }

  /** A feedback option sets the feedback and nothing else. */
  lemma SelectFeedback(t: seq<Step>, s: SolverState, o: StepOption)
    requires s.currentStep < |t| && o.action.None? && o.feedback != ""
    ensures Select(t, s, o) == s.(feedback := o.feedback)
  {
  }

  /** The resolution of the entry a plain option records is the step that option leads to. */
  lemma ResolveNewEntry(t: seq<Step>, cs: nat, k: nat)
    requires WellFormed(t) && cs < |t| && k < |t[cs].options|
    requires t[cs].options[k].action.None? && t[cs].options[k].feedback == ""
    ensures Resolve(t, PathItem(t[cs].id, t[cs].options[k].id)) ==
            Some(Resolved(StepIndex(t, t[cs].options[k].next), t[cs].options[k]))
    ensures 0 < StepIndex(t, t[cs].options[k].next) < |t|
  {
    LookupOwnId(t, cs);
    LookupOwnOption(t, cs, k);
    PlainOptionTarget(t, cs, k);
  }

  /** Any other option appends exactly one entry for the current step, clears the feedback, shows
      the step solution, moves to the step `next` names and replaces the work area only when that
      step has one; hints, the map flag and the full solution are untouched. */
  lemma SelectTransition(t: seq<Step>, s: SolverState, o: StepOption)
    requires Consistent(t, s) && o in t[s.currentStep].options
    requires o.action.None? && o.feedback == ""
    ensures var r := Select(t, s, o);
      && r.path == s.path + [PathItem(t[s.currentStep].id, o.id)]
      && r.currentStep < |t| && t[r.currentStep].id == o.next
      && r.feedback == "" && r.showStepSolution
      && r.workingArea == (if t[r.currentStep].workArea != "" then t[r.currentStep].workArea else s.workingArea)
      && r.showHint == s.showHint && r.hintsUsed == s.hintsUsed
      && r.showSolutionMap == s.showSolutionMap && r.fullSolution == s.fullSolution
  {
    var k :| 0 <= k < |t[s.currentStep].options| && t[s.currentStep].options[k] == o;
    ResolveNewEntry(t, s.currentStep, k);
  }

  /** Appending a choice made on the current step to a walk that ends there gives a walk. */
  lemma {:induction false} WalkExtend(t: seq<Step>, path: seq<PathItem>, cs: nat, entry: PathItem)
    requires 0 < |t| && cs < |t| && PathIsWalk(t, path)
    requires path == [] ==> cs == 0
    requires path != [] ==> Resolve(t, Last(path)).Some? && Resolve(t, Last(path)).value.index == cs
    requires entry.stepId == t[cs].id && Advances(t, entry)
    ensures PathIsWalk(t, path + [entry])
  {
    var p := path + [entry];
    forall i | 0 <= i < |p| ensures Advances(t, p[i]) {
      if i < |path| { assert p[i] == path[i]; }
    }
    forall i | 0 <= i < |p| - 1
      ensures Resolve(t, p[i]).Some? && p[i + 1].stepId == t[Resolve(t, p[i]).value.index].id
    {
      if i < |path| - 1 {
        assert p[i] == path[i] && p[i + 1] == path[i + 1];
      } else {
        assert p[i] == Last(path) && p[i + 1] == entry;
      }
    }
  }

  /** Dropping the last choice of a walk gives a walk. */
  lemma WalkPrefix(t: seq<Step>, path: seq<PathItem>)
    requires PathIsWalk(t, path) && path != []
    ensures PathIsWalk(t, path[..|path| - 1])
  {
    var p := path[..|path| - 1];
    assert forall i :: 0 <= i < |p| ==> p[i] == path[i];
  }

  /** A transition keeps the state consistent. */
  lemma TransitionConsistent(t: seq<Step>, s: SolverState, o: StepOption)
    requires Consistent(t, s) && o in t[s.currentStep].options
    requires o.action.None? && o.feedback == ""
    ensures Consistent(t, Select(t, s, o))
  {
    var cs := s.currentStep;
    var k :| 0 <= k < |t[cs].options| && t[cs].options[k] == o;
    ResolveNewEntry(t, cs, k);
    var entry := PathItem(t[cs].id, o.id);
    WalkExtend(t, s.path, cs, entry);
    assert Last(s.path + [entry]) == entry;
  }

  /** Choosing one of the current step's options keeps the state consistent. */
  lemma SelectConsistent(t: seq<Step>, s: SolverState, o: StepOption)
    requires Consistent(t, s) && o in t[s.currentStep].options
    ensures Consistent(t, Select(t, s, o))
  {
    if o.action.None? && o.feedback == "" {
      TransitionConsistent(t, s, o);
    }
  }

  /** goBackStep on an empty path changes nothing; otherwise it pops one entry and either returns
      to the first step with the work area, feedback and step solution cleared, or to the step the
      new last entry's option leads to, with that step's work area and the option's correctness.
      It never touches the full solution, the hint state or the map flag. */
  lemma GoBackEffect(t: seq<Step>, s: SolverState)
    requires Consistent(t, s)
    ensures var r := GoBack(t, s);
      && (s.path == [] ==> r == s)
      && (s.path != [] ==> r.path == s.path[..|s.path| - 1])
      && (|s.path| == 1 ==> r.currentStep == 0 && r.workingArea == "" && r.feedback == "" && !r.showStepSolution)
      && (|s.path| > 1 ==>
            var back := Resolve(t, s.path[|s.path| - 2]).value;
            && r.currentStep == back.index && t[r.currentStep].id == back.option.next
            && r.workingArea == t[r.currentStep].workArea && r.feedback == ""
            && r.showStepSolution == back.option.isCorrect)
      && r.fullSolution == s.fullSolution && r.showHint == s.showHint && r.hintsUsed == s.hintsUsed
      && r.showSolutionMap == s.showSolutionMap
  {
    if |s.path| > 1 {
      var newPath := s.path[..|s.path| - 1];
      assert newPath[|newPath| - 1] == s.path[|s.path| - 2];
    }
  }

  /** goBackStep keeps the state consistent. */
  lemma GoBackConsistent(t: seq<Step>, s: SolverState)
    requires Consistent(t, s)
    ensures Consistent(t, GoBack(t, s))
  {
    if s.path != [] {
      WalkPrefix(t, s.path);
      if |s.path| > 1 {
        var newPath := s.path[..|s.path| - 1];
        assert Last(newPath) == s.path[|s.path| - 2];
        assert Advances(t, Last(newPath));
      }
    }
  }

  /** Dropping the last choice keeps every remaining target recorded. */
  lemma RecordedPrefix(t: seq<Step>, path: seq<PathItem>, items: seq<SolutionItem>)
    requires TargetsRecorded(t, path, items) && path != []
    ensures TargetsRecorded(t, path[..|path| - 1], items)
  {
    var p := path[..|path| - 1];
    assert forall i :: 0 <= i < |p| ==> p[i] == path[i];
  }

  /** goBackStep keeps the solution of every target that remains on the path. */
  lemma GoBackSettled(t: seq<Step>, s: SolverState)
    requires Settled(t, s)
    ensures Settled(t, GoBack(t, s))
  {
    GoBackConsistent(t, s);
    GoBackEffect(t, s);
    if s.path != [] {
      RecordedPrefix(t, s.path, s.fullSolution);
    }
  }

  /** Showing the hint counts one use; hiding it counts none. */
  lemma ToggleHintCounts(s: SolverState)
    ensures ToggleHint(s).showHint == !s.showHint
    ensures ToggleHint(s).hintsUsed == if s.showHint then s.hintsUsed else s.hintsUsed + 1
    ensures ToggleHint(s).(showHint := s.showHint, hintsUsed := s.hintsUsed) == s
  {
  }

  // ===== The full-solution effect =====

  /** The effect changes nothing but the full solution, which it only extends, by at most one item;
      while the step solution is shown, the current step's solution is recorded afterwards. */
  lemma SyncRecordsCurrent(t: seq<Step>, s: SolverState)
    requires s.currentStep < |t|
    ensures var r := SyncFullSolution(t, s);
      && r.(fullSolution := s.fullSolution) == s
      && s.fullSolution <= r.fullSolution && |r.fullSolution| <= |s.fullSolution| + 1
      && (s.showStepSolution && t[s.currentStep].solution != "" ==> HasSolutionFor(r.fullSolution, t[s.currentStep].id))
      && (!s.showStepSolution ==> r == s)
  {
    var r := SyncFullSolution(t, s);
    if r != s {
      assert r.fullSolution[|s.fullSolution|].stepId == t[s.currentStep].id;
    }
  }

  /** Running the effect twice records nothing more than running it once. */
  lemma SyncIdempotent(t: seq<Step>, s: SolverState)
    requires s.currentStep < |t|
    ensures SyncFullSolution(t, SyncFullSolution(t, s)) == SyncFullSolution(t, s)
  {
    SyncRecordsCurrent(t, s);
  }

  /** The effect keeps the state consistent: the item it adds names a step not yet recorded. */
  lemma SyncConsistent(t: seq<Step>, s: SolverState)
    requires Consistent(t, s)
    ensures Consistent(t, SyncFullSolution(t, s))
  {
    var step := t[s.currentStep];
    if s.showStepSolution && step.solution != "" && !HasSolutionFor(s.fullSolution, step.id) {
      AppendItemWellFormed(t, s.fullSolution, SolutionItem(step.id, step.solution, s.currentStep));
    }
  }

  /** An entry for a step without one can join well-formed entries. */
  lemma AppendItemWellFormed(t: seq<Step>, items: seq<SolutionItem>, item: SolutionItem)
    requires SolutionItemsWellFormed(t, items) && !HasSolutionFor(items, item.stepId)
    requires item.stepNumber < |t| && item.stepId == t[item.stepNumber].id && item.solution == t[item.stepNumber].solution
    ensures SolutionItemsWellFormed(t, items + [item])
  {
    var more := items + [item];
    forall i, j | 0 <= i < j < |more| ensures more[i].stepId != more[j].stepId {
      if j == |items| {
        assert more[i] == items[i];
      }
    }
  }

  /** Once settled, the effect has nothing left to record. */
  lemma SettledFixed(t: seq<Step>, s: SolverState)
    requires Settled(t, s)
    ensures SyncFullSolution(t, s) == s
  {
    if s.path != [] {
      assert Resolve(t, s.path[|s.path| - 1]).value.index == s.currentStep;
    }
  }

  /** Right after a transition the effect records the step just reached, which settles the state. */
  lemma CoveredSettles(t: seq<Step>, s: SolverState)
    requires Covered(t, s)
    ensures Settled(t, SyncFullSolution(t, s))
  {
    var r := SyncFullSolution(t, s);
    SyncConsistent(t, s);
    SyncRecordsCurrent(t, s);
    forall i | 0 <= i < |s.path|
      ensures Resolve(t, s.path[i]).Some? && HasSolutionFor(r.fullSolution, t[Resolve(t, s.path[i]).value.index].id)
    {
      if i < |s.path| - 1 {
        assert s.path[..|s.path| - 1][i] == s.path[i];
        var j :| 0 <= j < |s.fullSolution| && s.fullSolution[j].stepId == t[Resolve(t, s.path[i]).value.index].id;
        assert r.fullSolution[j] == s.fullSolution[j];
      }
    }
  }

  /** A transition out of a settled state leaves it covered. */
  lemma TransitionCovered(t: seq<Step>, s: SolverState, o: StepOption)
    requires Settled(t, s) && o in t[s.currentStep].options
    requires o.action.None? && o.feedback == ""
    ensures Covered(t, Select(t, s, o))
  {
    TransitionConsistent(t, s, o);
    SelectTransition(t, s, o);
    var r := Select(t, s, o);
    assert r.path[..|r.path| - 1] == s.path;
  }

  // ===== Whole events =====

  /** A settled state is covered. */
  lemma SettledCovered(t: seq<Step>, s: SolverState)
    requires Settled(t, s)
    ensures Covered(t, s)
  {
    if s.path != [] {
      RecordedPrefix(t, s.path, s.fullSolution);
    }
  }

  /** The handlers that touch neither the path nor the full solution keep a settled state settled. */
  lemma FlagsSettled(t: seq<Step>, s: SolverState, e: Event)
    requires Settled(t, s) && (e.Hint? || e.CloseMap? || (e.Choose? && e.option.action == Some(ShowSolutionMap)))
    ensures Settled(t, Handle(t, s, e))
  {
  }

  /** A feedback option keeps a settled state settled. */
  lemma FeedbackSettled(t: seq<Step>, s: SolverState, o: StepOption)
    requires Settled(t, s) && o.action.None? && o.feedback != ""
    ensures Settled(t, Select(t, s, o))
  {
  }

  /** Restart leaves the state settled. */
  lemma RestartSettled(t: seq<Step>, s: SolverState, o: StepOption)
    requires WellFormed(t) && s.currentStep < |t| && o.action == Some(Restart)
    ensures Settled(t, Select(t, s, o))
  {
  }

  /** Every handler the component lets the user trigger leaves a settled state covered. */
  lemma HandleCovered(t: seq<Step>, s: SolverState, e: Event)
    requires Settled(t, s) && Enabled(t, s, e)
    ensures Covered(t, Handle(t, s, e))
  {
    match e {
      case Choose(o) =>
        if o.action.None? && o.feedback == "" {
          TransitionCovered(t, s, o);
        } else if o.action == Some(Restart) {
          RestartSettled(t, s, o);
          SettledCovered(t, Select(t, s, o));
        } else if o.action.Some? {
          assert o.action.value == ShowSolutionMap;
          FlagsSettled(t, s, e);
          SettledCovered(t, Select(t, s, o));
        } else {
          FeedbackSettled(t, s, o);
          SettledCovered(t, Select(t, s, o));
        }
      case Back =>
        GoBackSettled(t, s);
        SettledCovered(t, GoBack(t, s));
      case _ =>
        FlagsSettled(t, s, e);
        SettledCovered(t, Handle(t, s, e));
    }
  }

  /** Every event the component lets the user raise keeps the state settled: after the effect,
      the solution of every step the recorded choices led to is in the full solution. */
  lemma DispatchSettled(t: seq<Step>, s: SolverState, e: Event)
    requires Settled(t, s) && Enabled(t, s, e)
    ensures Settled(t, Dispatch(t, s, e))
  {
    HandleCovered(t, s, e);
    CoveredSettles(t, Handle(t, s, e));
  }

  /** Going back never loses a recorded solution: the full solution is the same as before. */
  lemma BackKeepsTrace(t: seq<Step>, s: SolverState)
    requires Settled(t, s)
    ensures Dispatch(t, s, Back).fullSolution == s.fullSolution
    ensures s.path != [] ==> Dispatch(t, s, Back).path == s.path[..|s.path| - 1]
  {
    GoBackSettled(t, s);
    GoBackEffect(t, s);
    SettledFixed(t, GoBack(t, s));
  }

  /** Only restart shortens the full solution; every other event keeps what was recorded as a prefix. */
  lemma TraceOnlyGrows(t: seq<Step>, s: SolverState, e: Event)
    requires 0 < |t| && s.currentStep < |t|
    requires !(e.Choose? && e.option.action == Some(Restart))
    ensures s.fullSolution <= Dispatch(t, s, e).fullSolution
  {
    var h := Handle(t, s, e);
    assert h.fullSolution == s.fullSolution;
    SyncRecordsCurrent(t, h);
  }

  /** Going back right after a transition returns to the step and path before it. */
  lemma GoBackUndoesTransition(t: seq<Step>, s: SolverState, o: StepOption)
    requires Consistent(t, s) && o in t[s.currentStep].options
    requires o.action.None? && o.feedback == ""
    ensures GoBack(t, Select(t, s, o)).path == s.path
    ensures GoBack(t, Select(t, s, o)).currentStep == s.currentStep
    ensures GoBack(t, Select(t, s, o)).showStepSolution == s.showStepSolution
    ensures GoBack(t, Select(t, s, o)).fullSolution == s.fullSolution
  {
    SelectTransition(t, s, o);
    TransitionConsistent(t, s, o);
    var r := Select(t, s, o);
    GoBackEffect(t, r);
    assert r.path[..|r.path| - 1] == s.path;
    if s.path != [] {
      assert r.path[|r.path| - 2] == Last(s.path);
    }
  }

  /** Restart, effect included, returns every hook but the map flag to its initial value, so
      restarting twice is the same as restarting once. */
  lemma DispatchRestart(t: seq<Step>, s: SolverState, o: StepOption)
    requires 0 < |t| && s.currentStep < |t| && o.action == Some(Restart)
    ensures Dispatch(t, s, Choose(o)) == Initial.(showSolutionMap := s.showSolutionMap)
    ensures Dispatch(t, Dispatch(t, s, Choose(o)), Choose(o)) == Dispatch(t, s, Choose(o))
  {
    SelectAction(t, s, o);
  }

  // ===== Runs of choices =====

  /** One correct choice from a settled state: the path grows by that choice, the walkthrough
      moves to step j (the one the option names) and, when step j has no entry yet, its
      solution is appended to the full solution. */
  lemma StepForward(t: seq<Step>, s: SolverState, o: StepOption, j: nat)
    requires Settled(t, s) && o in t[s.currentStep].options
    requires o.action.None? && o.feedback == ""
    requires j < |t| && t[j].id == o.next && !HasSolutionFor(s.fullSolution, o.next)
    ensures var r := Dispatch(t, s, Choose(o));
      && Settled(t, r)
      && r.currentStep == j
      && r.path == s.path + [PathItem(t[s.currentStep].id, o.id)]
      && r.fullSolution == s.fullSolution + [SolutionItem(t[j].id, t[j].solution, j)]
      && r.showStepSolution && r.feedback == ""
  {
    SelectTransition(t, s, o);
    DispatchSettled(t, s, Choose(o));
    var h := Select(t, s, o);
    assert h.currentStep == j by {
      assert t[h.currentStep].id == t[j].id;
    }
  }

  /** The state after choosing the given options one after the other, each followed by the effect. */
  function RunChoices(t: seq<Step>, s: SolverState, choices: seq<StepOption>): (r: SolverState)
    requires 0 < |t| && s.currentStep < |t|
    ensures r.currentStep < |t|
    decreases |choices|
  {
    if choices == [] then s else RunChoices(t, Dispatch(t, s, Choose(choices[0])), choices[1..])
  }

  /** The choices are correct options, each offered on the step the one before it leads to
      (the first on step `from`), and choice k leads to step targets[k]. */
  ghost predicate IsRoute(t: seq<Step>, from: nat, choices: seq<StepOption>, targets: seq<nat>) {
    && |choices| == |targets|
    && from < |t|
    && (forall k :: 0 <= k < |targets| ==> targets[k] < |t| && t[targets[k]].id == choices[k].next)
    && (forall k :: 0 <= k < |choices| ==> choices[k].action.None? && choices[k].feedback == "")
    && (choices != [] ==> choices[0] in t[from].options)
    && (forall k :: 0 < k < |choices| ==> choices[k] in t[targets[k - 1]].options)
  }

  /** The full-solution entries recorded on reaching the given steps, in order. */
  function Traced(t: seq<Step>, targets: seq<nat>): (items: seq<SolutionItem>)
    requires forall k :: 0 <= k < |targets| ==> targets[k] < |t|
    ensures |items| == |targets|
    ensures forall k :: 0 <= k < |targets| ==> items[k].stepNumber == targets[k]
  {
    if targets == [] then []
    else [SolutionItem(t[targets[0]].id, t[targets[0]].solution, targets[0])] + Traced(t, targets[1..])
  }

  /** What is left of a route after its first choice is a route from that choice's target. */
  lemma RouteTail(t: seq<Step>, from: nat, choices: seq<StepOption>, targets: seq<nat>)
    requires IsRoute(t, from, choices, targets) && choices != []
    ensures IsRoute(t, targets[0], choices[1..], targets[1..])
  {
    var rest := choices[1..];
    var restTargets := targets[1..];
    forall k | 0 < k < |rest| ensures rest[k] in t[restTargets[k - 1]].options {
      assert rest[k] == choices[k + 1] && restTargets[k - 1] == targets[k];
    }
  }

  /** A step whose index no entry carries has no entry: entries name the step they index, and
      step ids are unique. */
  lemma UnrecordedStep(t: seq<Step>, items: seq<SolutionItem>, j: nat)
    requires UniqueStepIds(t) && SolutionItemsWellFormed(t, items) && j < |t|
    requires forall i :: 0 <= i < |items| ==> items[i].stepNumber != j
    ensures !HasSolutionFor(items, t[j].id)
  {
  }

  /** Once the first target of a route is recorded, the later targets are still distinct and
      still unrecorded. */
  lemma FreshTail(items: seq<SolutionItem>, item: SolutionItem, targets: seq<nat>)
    requires targets != [] && item.stepNumber == targets[0]
    requires forall k, i :: 0 <= k < |targets| && 0 <= i < |items| ==> items[i].stepNumber != targets[k]
    requires forall k, l :: 0 <= k < l < |targets| ==> targets[k] != targets[l]
    ensures var more := items + [item];
      forall k, i :: 0 <= k < |targets[1..]| && 0 <= i < |more| ==> more[i].stepNumber != targets[1..][k]
    ensures forall k, l :: 0 <= k < l < |targets[1..]| ==> targets[1..][k] != targets[1..][l]
  {
    var more := items + [item];
    forall k, i | 0 <= k < |targets[1..]| && 0 <= i < |more| ensures more[i].stepNumber != targets[1..][k] {
      assert targets[1..][k] == targets[k + 1];
      if i < |items| {
        assert more[i] == items[i];
      }
    }
  }

  /** Entries recorded after the first target's entry are the route's entries. */
  lemma TracedAfterFirst(t: seq<Step>, items: seq<SolutionItem>, targets: seq<nat>, after: seq<SolutionItem>)
    requires targets != [] && forall k :: 0 <= k < |targets| ==> targets[k] < |t|
    requires after == (items + [SolutionItem(t[targets[0]].id, t[targets[0]].solution, targets[0])]) + Traced(t, targets[1..])
    ensures after == items + Traced(t, targets)
  {
    var first, rest := [SolutionItem(t[targets[0]].id, t[targets[0]].solution, targets[0])], Traced(t, targets[1..]);
    assert Traced(t, targets) == first + rest;
    AppendAssociative(items, first, rest);
  }

  lemma AppendAssociative<T>(a: seq<T>, b: seq<T>, c: seq<T>)
    ensures (a + b) + c == a + (b + c)
  {
  }

  /** A route from the current step of a settled state through distinct steps none of which
      has an entry yet. */
  ghost predicate FreshRoute(t: seq<Step>, s: SolverState, choices: seq<StepOption>, targets: seq<nat>) {
    && Settled(t, s) && IsRoute(t, s.currentStep, choices, targets)
    && (forall k, i :: 0 <= k < |targets| && 0 <= i < |s.fullSolution| ==> s.fullSolution[i].stepNumber != targets[k])
    && (forall k, l :: 0 <= k < l < |targets| ==> targets[k] != targets[l])
  }

  /** The first choice of such a route leaves the rest of it a route of the same kind, with one
      more path entry and the first target's entry appended. */
  lemma RouteFirstStep(t: seq<Step>, s: SolverState, choices: seq<StepOption>, targets: seq<nat>)
    requires FreshRoute(t, s, choices, targets) && choices != []
    ensures var s1 := Dispatch(t, s, Choose(choices[0]));
      && FreshRoute(t, s1, choices[1..], targets[1..])
      && s1.currentStep == targets[0]
      && |s1.path| == |s.path| + 1
      && s1.fullSolution == s.fullSolution + [SolutionItem(t[targets[0]].id, t[targets[0]].solution, targets[0])]
  {
    UnrecordedStep(t, s.fullSolution, targets[0]);
    StepForward(t, s, choices[0], targets[0]);
    RouteTail(t, s.currentStep, choices, targets);
    FreshTail(s.fullSolution, SolutionItem(t[targets[0]].id, t[targets[0]].solution, targets[0]), targets);
  }

  /** Following a route through steps not yet recorded keeps the state settled and ends on the
      route's last step. */
  lemma {:induction false} RunRoute(t: seq<Step>, s: SolverState, choices: seq<StepOption>, targets: seq<nat>)
    requires Settled(t, s) && IsRoute(t, s.currentStep, choices, targets)
    requires forall k, i :: 0 <= k < |targets| && 0 <= i < |s.fullSolution| ==> s.fullSolution[i].stepNumber != targets[k]
    requires forall k, l :: 0 <= k < l < |targets| ==> targets[k] != targets[l]
    ensures var r := RunChoices(t, s, choices);
      && Settled(t, r)
      && (targets != [] ==> r.currentStep == Last(targets))
    decreases |choices|
  {
    if choices != [] {
      var s1 := Dispatch(t, s, Choose(choices[0]));
      RouteFirstStep(t, s, choices, targets);
      RunRoute(t, s1, choices[1..], targets[1..]);
      if targets[1..] != [] {
        assert Last(targets[1..]) == Last(targets);
      }
    }
  }

  /** Following such a route records one path entry per choice and appends one solution entry per
      step reached, in the order reached. */
  lemma {:induction false} RunRouteTrace(t: seq<Step>, s: SolverState, choices: seq<StepOption>, targets: seq<nat>)
    requires Settled(t, s) && IsRoute(t, s.currentStep, choices, targets)
    requires forall k, i :: 0 <= k < |targets| && 0 <= i < |s.fullSolution| ==> s.fullSolution[i].stepNumber != targets[k]
    requires forall k, l :: 0 <= k < l < |targets| ==> targets[k] != targets[l]
    ensures RunChoices(t, s, choices).fullSolution == s.fullSolution + Traced(t, targets)
    ensures |RunChoices(t, s, choices).path| == |s.path| + |choices|
    decreases |choices|
  {
    if choices != [] {
      var s1 := Dispatch(t, s, Choose(choices[0]));
      RouteFirstStep(t, s, choices, targets);
      RunRouteTrace(t, s1, choices[1..], targets[1..]);
      TracedAfterFirst(t, s.fullSolution, targets, RunChoices(t, s1, choices[1..]).fullSolution);
    }
  }
}
