# IZZYMATHS core in Dafny

A model of the interactive core of the IZZYMATHS learning site, with proofs about it.

- **The linear-dependence walkthrough** (`LinearDependenceSolver`) is the main part. It is a
  decision table of ten steps that guides a student through deciding whether three vectors of
  R^4 are linearly dependent. The student picks options. A wrong option shows feedback. A
  correct option records the choice in the path and moves on. A Go Back button pops the path.
  A hint toggle counts the hints used. An effect adds each reached step's solution to a
  "full solution", and the render shows it sorted by step number.
- **The chapter quiz** (`QuizPanel`) looks up a question bank, falling back to a placeholder
  question. Its handlers select, check, advance and reset. It ends with a completion toast
  and a verdict card.
- **The performance panel** (`QuizPerformancePanel`) adjusts and clamps per-chapter scores.
  It derives the total, the completed and remaining counts, the best chapter and the
  display name of the topic.
- **The question loader** (`quiz-service`) turns a camelCase topic into a kebab-case folder
  name and builds an import path from it.
- **The device fingerprint utility** joins browser properties with `|` and hashes the
  UTF-16 code units with the 32-bit `31*h + c` hash. It prints the magnitude in hexadecimal
  and stores it in, and checks it against, a per-user storage key.

How the model is laid out:

- The walkthrough engine is a set of pure functions over any step table (`SolverEngine`).
  The table itself is `SolverSteps.Steps`.
- The component with its nine state hooks is a class
  (`SolverComponent.LinearDependenceSolver`). Each of its methods is proved to update its
  fields exactly as the engine function says.
- The quiz panel has the same split: `Quiz` functions, plus the class `Quiz.QuizPanel`.
- The fingerprint hash loop is a method proved against a recursive specification. Storage
  is a map, held by the class `DeviceFingerprint.FingerprintStore`.

The main results are these:

- Every event the rendered solver allows keeps a strong invariant, `Settled`:
  - the path is a walk through the table;
  - the current step is where the last choice led;
  - every step reached has its solution recorded exactly once.
- Going back never loses a recorded solution. Right after a transition it restores the path,
  the step, the step-solution flag and the full solution. The work area and the feedback are
  not restored.
- Following the shortest correct route ends on the completion step. The full solution then
  holds the eight reached steps in order.
- The displayed full solution does not depend on the order in which items were recorded.
- Under the quiz's UI protocol the score never exceeds the number of questions.
- For a topic without hyphens of its own, removing the hyphens from the kebab-case folder name
  gives back the lower-cased topic. The conversion is idempotent.
- The hash loop computes the 32-bit hash.
- Storing a fingerprint makes validation succeed for that user and leaves every other user
  unaffected.

## Model

| member | source | states |
|---|---|---|
| SolverSteps.FindIndex | src/components/LinearDependenceSolver.tsx:378-379 | `findIndex`: the result is the first index whose element satisfies the predicate, and it is -1 exactly when no element does |
| SolverSteps.FindIndexAt | src/components/LinearDependenceSolver.tsx:420 | an element that satisfies the predicate with none before it is the index `findIndex` returns |
| SolverSteps.FindStep | src/components/LinearDependenceSolver.tsx:346-348 | `findStep` finds a step exactly when the step index lookup succeeds; the step found is the one at that index and carries the requested id |
| SolverSteps.FindOption | src/components/LinearDependenceSolver.tsx:375 | `options.find` by id: an option found carries that id and is one of the options, and nothing is found exactly when no option has that id |
| SolverSteps.TableStepIdsUnique | src/components/LinearDependenceSolver.tsx:53-325 | no two of the ten steps share an id |
| SolverSteps.TableOptionIdsUnique | src/components/LinearDependenceSolver.tsx:53-325 | within every step no two options share an id |
| SolverSteps.TablePlainOptionsAdvance | src/components/LinearDependenceSolver.tsx:53-325 | every option that has neither an action nor feedback is correct and names a next step |
| SolverSteps.TableStartNotReentered | src/components/LinearDependenceSolver.tsx:53-325 | no advancing option leads back to the first step |
| SolverSteps.TableSolutionsPresent | src/components/LinearDependenceSolver.tsx:53-325 | every step carries a solution text |
| SolverSteps.TableGraphClosed | src/components/LinearDependenceSolver.tsx:53-325 | every `next` present names a step of the table |
| SolverSteps.TableWellFormed | src/components/LinearDependenceSolver.tsx:53-325 | the table has ten steps, starts with "start" and has all of the properties above |
| SolverSteps.LookupOwnId | src/components/LinearDependenceSolver.tsx:346-348 | with unique ids, looking up a step's own id returns that step and its index |
| SolverSteps.LookupOwnOption | src/components/LinearDependenceSolver.tsx:375 | with unique option ids, looking up an option's own id returns that option |
| SolverSteps.PlainOptionTarget | src/components/LinearDependenceSolver.tsx:418-421 | in a well-formed table a plain option is correct and its `next` is found at a positive index |
| SolverEngine.Resolve | src/components/LinearDependenceSolver.tsx:371-379 | a resolved path entry gives an option whose `next` is the id of the step at the resolved index |
| SolverEngine.GoBackEmptied | src/components/LinearDependenceSolver.tsx:355-367 | going back from a one-entry path empties the path, returns to step 0 and clears the work area, the feedback and the step solution, with nothing else changed |
| SolverEngine.GoBackUnresolved | src/components/LinearDependenceSolver.tsx:371-391 | when the new last entry does not resolve, only the path shrinks |
| SolverEngine.GoBackResolved | src/components/LinearDependenceSolver.tsx:371-391 | when it resolves, the step becomes the option's target, with that step's work area (or ""), cleared feedback and the option's correctness as the step-solution flag |
| SolverEngine.Handle | src/components/LinearDependenceSolver.tsx:354-436 | every handler keeps the current step inside the table |
| SolverEngine.Dispatch | src/components/LinearDependenceSolver.tsx:328-343 | a handler followed by the full-solution effect keeps the current step inside the table |
| SolverEngine.InitialSettled | src/components/LinearDependenceSolver.tsx:35-43 | the initial hook values satisfy the engine invariant `Settled` |
| SolverEngine.SelectAction | src/components/LinearDependenceSolver.tsx:302-320 | the show-map action only raises the map flag; restart resets every hook except the map flag |
| SolverEngine.SelectFeedback | src/components/LinearDependenceSolver.tsx:402-405 | an option with feedback only sets the feedback; path, step, step solution and work area stay as they were |
| SolverEngine.ResolveNewEntry | src/components/LinearDependenceSolver.tsx:408-421 | the entry a plain option appends resolves back to that option and to the step it leads to |
| SolverEngine.SelectTransition | src/components/LinearDependenceSolver.tsx:408-427 | a plain option appends exactly one path entry, clears the feedback, shows the step solution and moves to the step `next` names; the work area changes only when that step has one; hints, map flag and full solution are untouched |
| SolverEngine.WalkExtend | src/components/LinearDependenceSolver.tsx:408-421 | appending an advancing choice made on the step a walk ends on gives a walk |
| SolverEngine.WalkPrefix | src/components/LinearDependenceSolver.tsx:357-359 | dropping the last entry of a walk leaves a walk |
| SolverEngine.TransitionConsistent | src/components/LinearDependenceSolver.tsx:408-427 | a plain option keeps the state `Consistent` |
| SolverEngine.SelectConsistent | src/components/LinearDependenceSolver.tsx:396-428 | any option offered by the current step keeps the state `Consistent` |
| SolverEngine.GoBackEffect | src/components/LinearDependenceSolver.tsx:354-393 | the complete effect of going back: an empty path is left alone; otherwise the path loses its last entry and the step, work area, feedback and step-solution flag follow the new last entry (or reset on an empty path); the full solution, hints and map flag never change |
| SolverEngine.GoBackConsistent | src/components/LinearDependenceSolver.tsx:354-393 | going back keeps the state `Consistent` |
| SolverEngine.RecordedPrefix | src/components/LinearDependenceSolver.tsx:357-359 | the recorded targets of a path stay recorded for its prefix |
| SolverEngine.GoBackSettled | src/components/LinearDependenceSolver.tsx:354-393 | going back keeps the state `Settled` |
| SolverEngine.ToggleHintCounts | src/components/LinearDependenceSolver.tsx:431-436 | the hint flag flips, the counter grows by one exactly when the hint is being opened, and nothing else changes |
| SolverEngine.SyncRecordsCurrent | src/components/LinearDependenceSolver.tsx:328-343 | the effect changes only the full solution and only extends it, by at most one item; while the step solution is shown, the current step's solution is recorded afterwards; without it nothing changes |
| SolverEngine.SyncIdempotent | src/components/LinearDependenceSolver.tsx:333-341 | running the effect twice records nothing beyond running it once |
| SolverEngine.SyncConsistent | src/components/LinearDependenceSolver.tsx:328-343 | the effect keeps the state `Consistent`, and so never records a step twice |
| SolverEngine.SettledFixed | src/components/LinearDependenceSolver.tsx:328-343 | in a settled state the effect is a no-op |
| SolverEngine.CoveredSettles | src/components/LinearDependenceSolver.tsx:328-343 | when every earlier target is recorded, the effect records the current one and the state is settled |
| SolverEngine.TransitionCovered | src/components/LinearDependenceSolver.tsx:408-427 | a plain option taken from a settled state leaves every target but the new current step recorded |
| SolverEngine.SettledCovered | src/components/LinearDependenceSolver.tsx:328-343 | a settled state is covered |
| SolverEngine.FlagsSettled | src/components/LinearDependenceSolver.tsx:431-436 | toggling the hint, closing the map or opening it keep a settled state settled |
| SolverEngine.FeedbackSettled | src/components/LinearDependenceSolver.tsx:402-405 | a feedback option keeps a settled state settled |
| SolverEngine.RestartSettled | src/components/LinearDependenceSolver.tsx:310-319 | restarting gives a settled state |
| SolverEngine.HandleCovered | src/components/LinearDependenceSolver.tsx:354-436 | every event the render allows takes a settled state to a covered one |
| SolverEngine.DispatchSettled | src/components/LinearDependenceSolver.tsx:328-436 | every allowed event followed by the effect keeps the state `Settled`: the path is a walk, the step is where the walk ends, and every step reached has its solution recorded exactly once |
| SolverEngine.BackKeepsTrace | src/components/LinearDependenceSolver.tsx:354-393 | Go Back never removes a recorded solution and drops exactly the last path entry |
| SolverEngine.TraceOnlyGrows | src/components/LinearDependenceSolver.tsx:328-436 | apart from restart, every event leaves the old full solution as a prefix of the new one |
| SolverEngine.GoBackUndoesTransition | src/components/LinearDependenceSolver.tsx:354-427 | going back right after a plain option restores the path, the step, the step-solution flag and the full solution |
| SolverEngine.DispatchRestart | src/components/LinearDependenceSolver.tsx:310-319 | restart yields the initial state (the map flag kept), and restarting twice is the same as once |
| SolverEngine.StepForward | src/components/LinearDependenceSolver.tsx:328-427 | a plain option from a settled state moves to the step it names, appends one path entry and records that step's solution when it was not yet recorded |
| SolverEngine.RunChoices | src/components/LinearDependenceSolver.tsx:396-428 | a sequence of clicks keeps the current step inside the table |
| SolverEngine.Traced | src/components/LinearDependenceSolver.tsx:333-338 | the solutions of a list of reached steps, one item per step, in order and tagged with its step number |
| SolverEngine.RouteTail | src/components/LinearDependenceSolver.tsx:418-421 | the rest of a route after its first choice is a route from the first target |
| SolverEngine.UnrecordedStep | src/components/LinearDependenceSolver.tsx:333 | a step whose number is not among the recorded items has no recorded solution |
| SolverEngine.TracedAfterFirst | src/components/LinearDependenceSolver.tsx:333-338 | recording the first target and then the rest gives the trace of the whole route |
| SolverEngine.RouteFirstStep | src/components/LinearDependenceSolver.tsx:328-427 | the first choice of a fresh route moves to its first target, records it and leaves a fresh route for the rest |
| SolverEngine.RunRoute | src/components/LinearDependenceSolver.tsx:328-427 | following a route through unrecorded steps keeps the state settled and ends on the route's last step |
| SolverEngine.RunRouteTrace | src/components/LinearDependenceSolver.tsx:328-427 | following such a route appends the reached steps' solutions in the order reached, with one path entry per choice |
| SolverScenarios.FirstCorrectChoice | src/components/LinearDependenceSolver.tsx:53-90 | the first correct answer moves to the second step, records one choice and that step's solution |
| SolverScenarios.WrongFirstChoice | src/components/LinearDependenceSolver.tsx:56-72 | a wrong first answer only shows its feedback |
| SolverScenarios.BackAfterFirstChoice | src/components/LinearDependenceSolver.tsx:354-367 | going back after the first correct answer returns to step 0, hides the step solution and keeps the recorded solution |
| SolverScenarios.CanonicalTargetsNamed | src/components/LinearDependenceSolver.tsx:53-325 | each choice of the shortest correct route names the step the route reaches next |
| SolverScenarios.CanonicalChoicesOffered | src/components/LinearDependenceSolver.tsx:53-325 | each choice of that route is offered by the step it is made on, and is a plain option |
| SolverScenarios.CanonicalIsRoute | src/components/LinearDependenceSolver.tsx:53-325 | the shortest correct route is a route from the first step |
| SolverScenarios.CanonicalTargetsDistinct | src/components/LinearDependenceSolver.tsx:53-325 | that route never revisits a step |
| SolverScenarios.CanonicalWalk | src/components/LinearDependenceSolver.tsx:53-427 | following it ends settled on the "complete" step with eight path entries and the eight reached solutions recorded in order |
| SolutionDisplay.Insert | src/components/LinearDependenceSolver.tsx:549-550 | inserting an item into a list sorted by step number keeps it sorted and adds exactly that item |
| SolutionDisplay.DisplayOrder | src/components/LinearDependenceSolver.tsx:549-550 | the displayed full solution is sorted by step number and is a permutation of the stored items |
| SolutionDisplay.WellFormedDistinct | src/components/LinearDependenceSolver.tsx:333-338 | recorded items never share a step number |
| SolutionDisplay.SameHead | src/components/LinearDependenceSolver.tsx:549-550 | two sorted permutations of items with distinct step numbers start with the same item |
| SolutionDisplay.SameTail | src/components/LinearDependenceSolver.tsx:549-550 | removing a common first item leaves permutations of each other |
| SolutionDisplay.SortedUnique | src/components/LinearDependenceSolver.tsx:549-550 | there is only one sorted arrangement of items with distinct step numbers |
| SolutionDisplay.DisplayIndependentOfOrder | src/components/LinearDependenceSolver.tsx:549-550 | the display does not depend on the order in which items were recorded |
| SolutionDisplay.DistinctInMultiset | src/components/LinearDependenceSolver.tsx:549-550 | a permutation of items with distinct step numbers has distinct step numbers |
| SolutionDisplay.OccursOnce | src/components/LinearDependenceSolver.tsx:549-550 | each item of such a list occurs exactly once |
| SolutionDisplay.SortedDisplayedAsStored | src/components/LinearDependenceSolver.tsx:549-550 | a list already in step order is displayed as stored |
| SolverComponent.LinearDependenceSolver.constructor | src/components/LinearDependenceSolver.tsx:35-53 | the hooks start at their initial values over a well-formed table |
| SolverComponent.LinearDependenceSolver.RestartAction | src/components/LinearDependenceSolver.tsx:310-319 | the restart closure sets the hooks as `RunAction(Restart)` says |
| SolverComponent.LinearDependenceSolver.HandleSelect | src/components/LinearDependenceSolver.tsx:396-428 | `handleSelect` updates the hooks exactly as `Select` says |
| SolverComponent.LinearDependenceSolver.ResolveEntry | src/components/LinearDependenceSolver.tsx:371-379 | the lookups of `goBackStep` compute `Resolve` |
| SolverComponent.LinearDependenceSolver.GoBackStep | src/components/LinearDependenceSolver.tsx:354-393 | `goBackStep` updates the hooks exactly as `GoBack` says |
| SolverComponent.LinearDependenceSolver.ToggleHint | src/components/LinearDependenceSolver.tsx:431-436 | `toggleHint` updates the hooks exactly as `ToggleHint` says |
| SolverComponent.LinearDependenceSolver.CloseSolutionMap | src/components/LinearDependenceSolver.tsx:451-454 | the close button only lowers the map flag |
| SolverComponent.LinearDependenceSolver.SyncFullSolution | src/components/LinearDependenceSolver.tsx:328-343 | the effect updates the full solution exactly as `SyncFullSolution` says |
| SolverComponent.LinearDependenceSolver.OnEvent | src/components/LinearDependenceSolver.tsx:328-436 | an allowed event followed by the effect updates the hooks as `Dispatch` says and keeps the invariant |
| ProblemVectors.OnlyTrivialRelation | src/components/LinearDependenceSolver.tsx:243 | c1 v1 + c2 v2 + c3 v3 (written component by component by `Combination`) is zero exactly when all three coefficients are zero |
| ProblemVectors.NotDependent | src/components/LinearDependenceSolver.tsx:270 | no non-trivial combination of the three vectors is zero, so they are linearly independent, as the walkthrough concludes |
| ProblemVectors.MinorDeterminant | src/components/LinearDependenceSolver.tsx:243 | the 3x3 minor of the first three equations (rows `MinorRow(0..2)`, one component of each vector per row) has determinant 4, so the rank is 3 |
| ProblemVectors.FirstThreeEquationsSuffice | src/components/LinearDependenceSolver.tsx:243 | the first three equations alone force the trivial solution |
| Numbers.ToInt32 | src/utils/deviceFingerprint.ts:22 | `hash & hash`: the signed 32-bit value congruent to the input modulo 2^32 |
| Numbers.ToInt32OfInt32 | src/utils/deviceFingerprint.ts:22 | the conversion leaves a 32-bit value unchanged |
| Numbers.ToInt32Congruent | src/utils/deviceFingerprint.ts:21-22 | adding a multiple of 2^32 does not change the result |
| Numbers.Abs | src/utils/deviceFingerprint.ts:25 | `Math.abs` gives the input or its negation, never negative |
| Numbers.Digits | src/utils/deviceFingerprint.ts:25 | the digits of n in a radix: non-empty, each below the radix, no leading zero, and their value is n |
| Numbers.ToRadixString | src/utils/deviceFingerprint.ts:25 | `toString(radix)` of a natural number is a non-empty numeral of valid digits without a leading zero |
| Numbers.DigitOf | src/utils/deviceFingerprint.ts:25 | reading a character back gives the digit it spells, or the radix for a non-digit |
| Numbers.ParseDigitsString | src/utils/deviceFingerprint.ts:25 | parsing the characters of a digit list gives the list's value |
| Numbers.ParseToRadixString | src/utils/deviceFingerprint.ts:25 | parsing `toString(radix)` of n gives back n |
| Numbers.IntToDecimal | src/lib/quiz-service.ts:14 | the decimal numeral an integer is interpolated as (the chapter here, also the placeholder question's chapter and the screen size): a minus sign exactly for negatives, then at least one decimal digit and no leading zero, so each integer has exactly one numeral |
| Numbers.DecimalRoundTrip | src/lib/quiz-service.ts:14 | parsing the decimal numeral of n gives back n, so distinct chapters are interpolated as distinct numerals |
| Quiz.QuizQuestionsWellFormed | src/components/QuizPanel.tsx:29-190 | every question of the inline bank has options and a correct-answer index inside them |
| Quiz.Placeholder | src/components/QuizPanel.tsx:199-210 | the fallback question is well formed |
| Quiz.GetQuestions | src/components/QuizPanel.tsx:192-212 | `getQuestions` returns the bank's list when topic and chapter are present and the one placeholder question otherwise; the list is never empty and every question is well formed |
| Quiz.InlineBankChapterSeven | src/components/QuizPanel.tsx:29-72 | linear algebra chapter 7 gets the sample questions |
| Quiz.InlineBankMissingChapter | src/components/QuizPanel.tsx:192-212 | a missing chapter of a known topic gets the placeholder |
| Quiz.InlineBankMissingTopic | src/components/QuizPanel.tsx:192-212 | an unknown topic gets the placeholder |
| Quiz.CheckAnswerEffect | src/components/QuizPanel.tsx:221-234 | without a selection nothing changes; with one the explanation is shown, the score grows by one exactly for the correct answer, and nothing else changes |
| Quiz.NextQuestionEffect | src/components/QuizPanel.tsx:237-249 | before the last question the index advances and the selection and explanation clear; on the last only the completed flag rises; the index stays on a question |
| Quiz.ResetIdempotent | src/components/QuizPanel.tsx:251-257 | reset restores the initial hooks, and a second reset changes nothing |
| Quiz.StartInvariant | src/components/QuizPanel.tsx:21-25 | the initial state satisfies the protocol invariant |
| Quiz.StepKeepsInvariant | src/components/QuizPanel.tsx:266-361 | every event the rendered panel allows keeps the index on a question, counts each question at most once and reaches completion only on the last question |
| Quiz.ScoreBounded | src/components/QuizPanel.tsx:221-234 | under the invariant the score is at most the number of questions |
| Quiz.Run | src/components/QuizPanel.tsx:217-257 | any allowed sequence of events keeps the invariant |
| Quiz.RunScoreBounded | src/components/QuizPanel.tsx:217-257 | from the start, however the panel is used, the score never exceeds the number of questions |
| Quiz.ToastDoubleCounts | src/components/QuizPanel.tsx:243-247 | as written, the completion toast of a one-question quiz answered correctly reports 2 out of 1 |
| Quiz.ToastScore | src/components/QuizPanel.tsx:243-247 | the corrected toast agrees with the toast as written except after a correct selected answer, where it reports one point less; under the protocol invariant it never exceeds the number of questions |
| Quiz.ToastWithinQuestions | src/components/QuizPanel.tsx:237-249 | completing the last question, the corrected toast reports the score the completion card shows, which never exceeds the number of questions |
| Quiz.VerdictFor | src/components/QuizPanel.tsx:351-355 | "perfect" exactly for a full score, "good job" exactly for at least half otherwise, "keep studying" exactly below half |
| Quiz.QuizPanel.constructor | src/components/QuizPanel.tsx:20-25 | the panel starts with the questions of its topic and chapter and the initial hooks |
| Quiz.QuizPanel.HandleAnswerSelect | src/components/QuizPanel.tsx:217-219 | the selection is recorded as `AnswerSelect` says |
| Quiz.QuizPanel.HandleCheckAnswer | src/components/QuizPanel.tsx:221-234 | the hooks change as `CheckAnswer` says |
| Quiz.QuizPanel.HandleNextQuestion | src/components/QuizPanel.tsx:237-249 | the hooks change as `NextQuestion` says; a toast is raised exactly on the last question, and it reports the stored score plus a point for a correct selected answer, as written |
| Quiz.QuizPanel.ResetQuiz | src/components/QuizPanel.tsx:251-257 | every hook returns to its initial value |
| Quiz.QuizPanel.OnEvent | src/components/QuizPanel.tsx:266-361 | an allowed event updates the hooks as `Step` says and keeps the invariant |
| QuizPerformance.TopicOffset | src/components/QuizPerformancePanel.tsx:36-39 | the topic adjustment `(length % 5) * 2 - 5`, with the length in UTF-16 code units, is odd and lies in [-5, 3] |
| QuizPerformance.TopicOffsetValues | src/components/QuizPerformancePanel.tsx:36-39 | the adjustment is one of -5, -3, -1, 1, 3; it is -5 exactly for code-unit lengths divisible by 5 and 3 exactly for lengths 4 mod 5 |
| QuizPerformance.AstralTopicOffset | src/components/QuizPerformancePanel.tsx:36 | a topic of one character above U+FFFF has length 2 and gets the offset -1 |
| QuizPerformance.Clamp | src/components/QuizPerformancePanel.tsx:39 | the result lies in [0, 100], equals the input inside that range and the nearer bound outside it |
| QuizPerformance.AdjustScores | src/components/QuizPerformancePanel.tsx:37-40 | each chapter keeps its label and gets a score in [0, 100] that is the adjusted score whenever that is in range |
| QuizPerformance.AllPositiveCounts | src/components/QuizPerformancePanel.tsx:49-52 | when every score is positive, every chapter counts as completed and none as remaining |
| QuizPerformance.PanelDataAllCompleted | src/components/QuizPerformancePanel.tsx:24-52 | for drawn scores in [60, 99] the panel's eight chapters keep their labels "Ch 1" to "Ch 8" and score at least 55, so the completed count is 8 and the "Remaining" slice of the pie is always empty |
| QuizPerformance.DrawnScoresClampOnlyAtTop | src/components/QuizPerformancePanel.tsx:25-39 | for base scores drawn from [60, 99] the adjusted score is at least 55 and is exact unless it is cut to 100 |
| QuizPerformance.SumBounds | src/components/QuizPerformancePanel.tsx:46 | the total of scores in [0, 100] lies between 0 and 100 times the number of chapters |
| QuizPerformance.Completed | src/components/QuizPerformancePanel.tsx:50 | the completed count never exceeds the number of chapters |
| QuizPerformance.Remaining | src/components/QuizPerformancePanel.tsx:51 | the remaining count never exceeds the number of chapters |
| QuizPerformance.CompletedRemainingPartition | src/components/QuizPerformancePanel.tsx:49-52 | with no negative scores, completed and remaining chapters add up to all chapters |
| QuizPerformance.AdjustedPartition | src/components/QuizPerformancePanel.tsx:36-52 | after adjustment the pie counts add up to all chapters and the total lies in [0, 100 n] |
| QuizPerformance.Insert | src/components/QuizPerformancePanel.tsx:57 | inserting an entry ahead of the first entry that does not score more keeps a list sorted by descending score and adds exactly that entry |
| QuizPerformance.InsertHead | src/components/QuizPerformancePanel.tsx:57 | the new head is the inserted entry exactly when it scores at least the old head |
| QuizPerformance.SortByScore | src/components/QuizPerformancePanel.tsx:57 | the sort yields a descending permutation of the chapters |
| QuizPerformance.BestChapter | src/components/QuizPerformancePanel.tsx:57 | a best chapter exists exactly when there are chapters |
| QuizPerformance.BestChapterIsEarliestMaximum | src/components/QuizPerformancePanel.tsx:57 | the best chapter is the earliest chapter with the highest score, as a stable sort puts first |
| QuizPerformance.ToUpper | src/components/QuizPerformancePanel.tsx:63 | a lower-case ASCII letter becomes its own capital (32 code points lower) and every other character is kept |
| QuizPerformance.SpaceBeforeCapitals | src/components/QuizPerformancePanel.tsx:62 | one space is inserted per capital letter |
| QuizPerformance.CapitalsFollowSpace | src/components/QuizPerformancePanel.tsx:62 | every capital of the spaced text comes right after a space |
| QuizPerformance.RemoveInsertedSpaces | src/components/QuizPerformancePanel.tsx:62 | for a topic without spaces, deleting the spaces of the spaced text gives the topic back, so only spaces are inserted and the other characters keep their order |
| QuizPerformance.CapitalizeFirst | src/components/QuizPerformancePanel.tsx:63 | only the first character may change, and a lower-case first letter becomes its own capital |
| QuizPerformance.TrimStart | src/components/QuizPerformancePanel.tsx:64 | removes exactly the leading whitespace |
| QuizPerformance.TrimEnd | src/components/QuizPerformancePanel.tsx:64 | removes exactly the trailing whitespace |
| QuizPerformance.Trim | src/components/QuizPerformancePanel.tsx:64 | the result neither starts nor ends with whitespace and is the input when the input already does neither |
| QuizPerformance.TrimKeepsMiddle | src/components/QuizPerformancePanel.tsx:64 | the result is a contiguous slice of the input, and everything cut off before and after it is whitespace |
| QuizPerformance.TrimIdempotent | src/components/QuizPerformancePanel.tsx:64 | trimming twice is trimming once |
| QuizPerformance.FormatTopicName | src/components/QuizPerformancePanel.tsx:60-65 | the display name neither starts nor ends with whitespace |
| QuizPerformance.LastKept | src/components/QuizPerformancePanel.tsx:62 | inserting spaces keeps the last character |
| QuizPerformance.CamelCaseName | src/components/QuizPerformancePanel.tsx:60-65 | for a camelCase name of letters the display name is the spaced name with its first letter capitalised, one character longer per capital |
| QuizPerformance.LetterNotWhitespace | src/components/QuizPerformancePanel.tsx:64 | letters are not trimmed |
| QuizPerformance.SpaceAppend | src/components/QuizPerformancePanel.tsx:62 | space insertion works piece by piece |
| QuizPerformance.NoCapitalsUnchanged | src/components/QuizPerformancePanel.tsx:62 | a name without capitals is not spaced |
| QuizPerformance.LinearAlgebraSpaced | src/components/QuizPerformancePanel.tsx:62 | "linearAlgebra" is spaced as "linear Algebra" |
| QuizPerformance.LinearAlgebraName | src/components/QuizPerformancePanel.tsx:60-65 | "linearAlgebra" is displayed as "Linear Algebra" |
| QuizService.ToLower | src/lib/quiz-service.ts:11 | capitals become the corresponding lower-case letter and every other character is kept |
| QuizService.ScanIsHyphenate | src/lib/quiz-service.ts:11 | the left-to-right regular-expression replace equals the recursive definition that puts a hyphen at each lower-to-upper boundary |
| QuizService.ToKebab | src/lib/quiz-service.ts:11 | the folder name has no capitals |
| QuizService.HyphenateLength | src/lib/quiz-service.ts:11 | the replacement adds one character per lower-to-upper boundary |
| QuizService.KebabLength | src/lib/quiz-service.ts:11 | the folder name is one character longer per boundary |
| QuizService.RemoveHyphens | src/lib/quiz-service.ts:11 | removing hyphens never makes a name longer |
| QuizService.RemoveHyphensAppend | src/lib/quiz-service.ts:11 | hyphen removal works piece by piece |
| QuizService.LowerAllAppend | src/lib/quiz-service.ts:11 | lower-casing works piece by piece |
| QuizService.RemoveInsertedHyphens | src/lib/quiz-service.ts:11 | for a topic without hyphens, removing the hyphens of the folder name gives the lower-cased topic, so the conversion loses nothing but case |
| QuizService.HyphenateLowered | src/lib/quiz-service.ts:11 | lower-casing after hyphenation and then removing hyphens gives the lower-cased input |
| QuizService.HeadLowered | src/lib/quiz-service.ts:11 | the first character's contribution, hyphens removed, is that character lower-cased |
| QuizService.NoCapitalsNoHyphens | src/lib/quiz-service.ts:11 | a name without capitals has no boundaries and is not changed by the replace |
| QuizService.KebabIdempotent | src/lib/quiz-service.ts:11 | converting a converted name again changes nothing |
| QuizService.LinearAlgebraScan | src/lib/quiz-service.ts:11 | the replace turns "linearAlgebra" into "linear-Algebra" |
| QuizService.LinearAlgebraKebab | src/lib/quiz-service.ts:11 | "linearAlgebra" becomes "linear-algebra" |
| QuizService.ScanAppend | src/lib/quiz-service.ts:11 | with no boundary at the seam, the replace works piece by piece |
| QuizService.HyphenateAppend | src/lib/quiz-service.ts:11 | with no boundary at the seam, hyphenation works piece by piece |
| QuizService.NoCapitalsScan | src/lib/quiz-service.ts:11 | a name without capitals is unchanged by the replace and by lower-casing |
| QuizService.ImportPath | src/lib/quiz-service.ts:14 | the import path starts with the questions folder and ends in ".ts" |
| QuizService.ImportPathSeparatesChapters | src/lib/quiz-service.ts:14 | two chapters of one topic never share an import path |
| DeviceFingerprint.FingerprintString | src/utils/deviceFingerprint.ts:8-15 | the joined string is the four parts plus three separators long |
| DeviceFingerprint.Join | src/utils/deviceFingerprint.ts:15 | the parts are joined with a `|` after each of the first three, the first part in front |
| DeviceFingerprint.SplitAtBar | src/utils/deviceFingerprint.ts:15 | a bar-free prefix before the first `|` is determined by the string |
| DeviceFingerprint.JoinSeparates | src/utils/deviceFingerprint.ts:15 | when the first three parts contain no `|`, equal joined strings have equal parts |
| Utf16Text.Utf16 | src/utils/deviceFingerprint.ts:20 | a character is one code unit below U+10000 and two otherwise, each unit below 2^16 |
| Utf16Text.CodeUnits | src/utils/deviceFingerprint.ts:19-20 | the code units of a string are at least as many as its characters, each below 2^16 |
| Utf16Text.Utf16RoundTrip | src/utils/deviceFingerprint.ts:20 | a surrogate pair has a high and a low surrogate that decode to the character |
| Utf16Text.JsLength | src/components/QuizPerformancePanel.tsx:36 | `length` counts code units: at least the number of characters, and exactly that when every character is below U+10000 |
| Utf16Text.BasicPlaneLength | src/utils/deviceFingerprint.ts:19 | a string of characters below U+10000 has one code unit per character |
| Utf16Text.AstralLength | src/components/QuizPerformancePanel.tsx:36 | one character above U+FFFF has length 2 |
| DeviceFingerprint.HashSpec | src/utils/deviceFingerprint.ts:18-23 | the hash is a signed 32-bit value |
| DeviceFingerprint.ShiftStep | src/utils/deviceFingerprint.ts:21-22 | `(h << 5) - h + c` truncated to 32 bits is `31 h + c` truncated to 32 bits |
| DeviceFingerprint.ShiftLeft5 | src/utils/deviceFingerprint.ts:21 | `h << 5` is a 32-bit value congruent to 32 h |
| DeviceFingerprint.Hash | src/utils/deviceFingerprint.ts:18-23 | the loop computes the 32-bit hash of the code units |
| DeviceFingerprint.FingerprintIsHex | src/utils/deviceFingerprint.ts:25 | the fingerprint is a non-empty hexadecimal numeral without leading zero whose value is the hash's magnitude, at most 2^31 |
| DeviceFingerprint.GenerateDeviceFingerprint | src/utils/deviceFingerprint.ts:5-26 | computes the fingerprint of the given environment, never empty |
| DeviceFingerprint.Key | src/utils/deviceFingerprint.ts:30 | the key is the prefix "device_fingerprint_" followed by the user id |
| DeviceFingerprint.KeysSeparateUsers | src/utils/deviceFingerprint.ts:30 | two users share a key exactly when they are the same user |
| DeviceFingerprint.StoreFingerprint | src/utils/deviceFingerprint.ts:28-31 | the user's key maps to the current fingerprint and every other key is unchanged |
| DeviceFingerprint.ValidateFingerprint | src/utils/deviceFingerprint.ts:33-38 | validation fails without a stored value and succeeds exactly when the stored value equals the current fingerprint |
| DeviceFingerprint.StoreThenValidate | src/utils/deviceFingerprint.ts:28-38 | right after storing, validation in the same environment succeeds |
| DeviceFingerprint.StoreKeepsOtherUsers | src/utils/deviceFingerprint.ts:28-38 | storing for one user does not change any other user's validation |
| DeviceFingerprint.FingerprintStore.constructor | src/utils/deviceFingerprint.ts:28-31 | the store starts with the given contents |
| DeviceFingerprint.FingerprintStore.Store | src/utils/deviceFingerprint.ts:28-31 | the storage changes as `StoreFingerprint` says |
| DeviceFingerprint.FingerprintStore.Validate | src/utils/deviceFingerprint.ts:33-38 | the answer is `ValidateFingerprint` of the current storage |

## Left out

- The display texts of the step table and of the quiz questions are not kept word for word.
  They are non-empty tags made from their kind and owner, because no behaviour depends on
  their wording. The ids, `next` targets, correctness flags, feedback presence, work-area
  presence and actions are kept exactly.
- The dependency list of the solver's effect, `[showStepSolution, step, currentStep]` at
  src/components/LinearDependenceSolver.tsx:342, is evaluated during the render. That happens
  before `const step` is declared at :351. With native `const` this is a temporal-dead-zone
  ReferenceError on every render. The code only works if the build lowers `const` to `var`, in
  which case the list holds `undefined` for `step` and the effect still reruns on the two other
  values. The model gives the intended behaviour and not that error. It runs the effect after
  every handler, with the step given by `currentStep`.
- The render sorts `fullSolution` in place. The model treats the sort as a function that
  produces the displayed order. The stored order is whatever the effect appended, and the
  model keeps it unchanged, so the in-place update of the state array is not modelled.
- JSX rendering, the progress bar, the solution map's text, the toasts' titles, the icons and
  the charts are left out. Only the decisions they show are modelled: which buttons exist,
  and the verdict.
- The `Math.random` base scores of the performance panel are taken as input.
- The average score's division and the percentage's `Math.round` are left out, because they
  are floating point. `SumBounds` covers the numerator.
- The performance panel's sort is modelled as a stable insertion sort. `Array.prototype.sort`
  is stable in current engines, and the best chapter is proved to be the earliest maximum.
- `fetchQuestions` is modelled by its conversion and its path. The dynamic `import`, the
  promise, the logging and the rethrown error are I/O.
- The question files that `fetchQuestions` loads (chapter-1.ts, chapter-2.ts) are not part of
  this model.
- `navigator.userAgent`, `window.screen`, the `Intl` time zone and `navigator.language` are
  parameters of the fingerprint.
- `localStorage` is a map from keys to strings.
- QuizService.ToLower: only ASCII capitals are lower-cased. The full Unicode case mapping of
  `toLowerCase` is not modelled.
- QuizPerformance.ToUpper: only ASCII letters are capitalised. The full Unicode case mapping
  of `toUpperCase` is not modelled.
- Numbers.IntToDecimal covers integers only, and writes every integer in plain digits. JavaScript
  writes integers of magnitude 10^21 or more in exponent notation, and the model does not. The
  formatting of non-integer numbers is not modelled either. The `chapter` is an integer in every
  caller.
- The other pages and panels of the site are not part of this model. This includes the
  reactor panel, authentication, content viewers and screenshot prevention.

Where the solver's code differs from its described behaviour, the model follows the code:

- An option with feedback never changes the step, the path or the step solution.
- A transition to a step without a work area keeps the previous work area.
- Showing feedback does not hide the current step's solution.

## Findings

| source | as written | input that shows it | evidently intended | confidence | as-written member | corrected member |
|---|---|---|---|---|---|---|
| src/components/QuizPanel.tsx:246 | the completion toast shows the stored score plus one more point when the selected answer is correct, but checking that answer (line 233) already added its point | a one-question quiz: select the correct answer, check, complete; the toast says 2/1 | report the stored score, as the completion card does | not executed | Quiz.ToastDoubleCounts | Quiz.ToastWithinQuestions |
