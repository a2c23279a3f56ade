/**
 * The chapter quiz panel: the inline question bank with its placeholder fallback, the five
 * state hooks (question index, selected answer, explanation flag, score, completion flag)
 * and the handlers that update them, first as functions on a state value and then as the
 * methods of a class whose fields are the hooks.
 */
module Quiz {
  import opened Optional
  import opened Numbers

  /** The source's `QuizQuestion` record. */
  datatype QuizQuestion = QuizQuestion(
    id: int,
    question: string,
    options: seq<string>,
    correctAnswer: int,
    explanation: string)

  /** Stand-in for a display text of the bank: its kind and its owner. */
  function Tag(kind: string, owner: string): (t: string)
    ensures t != ""
  {
    kind + ":" + owner
  }

  /** A bank question with four answer options; `owner` names the entry its texts belong to. */
  function BankQuestion(owner: string, id: int, correctAnswer: int): QuizQuestion {
    QuizQuestion(id, Tag("question", owner),
                 [Tag("A", owner), Tag("B", owner), Tag("C", owner), Tag("D", owner)],
                 correctAnswer, Tag("explanation", owner))
  }

  /** The three questions of linear-algebra chapter 7. */
  const LinearAlgebraCh7Questions: seq<QuizQuestion> := [
    BankQuestion("la7-1", 1, 0),
    BankQuestion("la7-2", 2, 1),
    BankQuestion("la7-3", 3, 1)]

  /** `quizQuestions`: topic, then chapter number, then the chapter's questions. */
  const QuizQuestions: map<string, map<int, seq<QuizQuestion>>> := map[
    "linearAlgebra" := map[
      1 := [BankQuestion("la1", 1, 0)],
      2 := [BankQuestion("la2", 1, 0)],
      3 := [BankQuestion("la3", 1, 0)],
      4 := [BankQuestion("la4", 1, 0)],
      5 := [BankQuestion("la5", 1, 0)],
      6 := [BankQuestion("la6", 1, 0)],
      7 := LinearAlgebraCh7Questions,
      8 := [BankQuestion("la8", 1, 0)]],
    "diffEq" := map[
      1 := [BankQuestion("de1", 1, 0)]]]

  /** A question whose correct answer indexes one of its options. */
  predicate QuestionWellFormed(q: QuizQuestion) {
    0 <= q.correctAnswer < |q.options|
  }

  /** Every chapter of the bank holds at least one question, every question is well formed and
      ids are distinct within a chapter. */
  predicate BankWellFormed(bank: map<string, map<int, seq<QuizQuestion>>>) {
    forall topic, chapter :: topic in bank && chapter in bank[topic] ==>
      var qs := bank[topic][chapter];
      |qs| > 0 &&
      (forall i :: 0 <= i < |qs| ==> QuestionWellFormed(qs[i])) &&
      (forall i, j :: 0 <= i < j < |qs| ==> qs[i].id != qs[j].id)
  }

  lemma QuizQuestionsWellFormed()
    ensures BankWellFormed(QuizQuestions)
  {
  }

  /** The one-question placeholder for a topic and chapter without questions. */
  function Placeholder(topic: string, chapter: int): (q: QuizQuestion)
    ensures QuestionWellFormed(q)
  {
    QuizQuestion(1, "Quiz questions for " + topic + " Chapter " + IntToDecimal(chapter) + " coming soon!",
                 ["Option A", "Option B", "Option C", "Option D"], 0,
                 "This is a placeholder quiz. Real questions will be added soon.")
  }

  /** `getQuestions`: the bank's questions for the topic and chapter, else the placeholder. */
  function GetQuestions(bank: map<string, map<int, seq<QuizQuestion>>>, topic: string, chapter: int): (qs: seq<QuizQuestion>)
    requires BankWellFormed(bank)
    ensures |qs| > 0
    ensures forall i :: 0 <= i < |qs| ==> QuestionWellFormed(qs[i])
    ensures topic !in bank || chapter !in bank[topic] ==> qs == [Placeholder(topic, chapter)]
    ensures topic in bank && chapter in bank[topic] ==> qs == bank[topic][chapter]
  {
    if topic in bank && chapter in bank[topic] then bank[topic][chapter]
    else [Placeholder(topic, chapter)]
  }

  /** On the inline bank, chapter 7 of linear algebra has its three questions. */
  lemma InlineBankChapterSeven()
    ensures (QuizQuestionsWellFormed(); GetQuestions(QuizQuestions, "linearAlgebra", 7) == LinearAlgebraCh7Questions)
  {
    QuizQuestionsWellFormed();
  }

  /** On the inline bank, a chapter past the last one falls back to the placeholder. */
  lemma InlineBankMissingChapter()
    ensures (QuizQuestionsWellFormed(); GetQuestions(QuizQuestions, "linearAlgebra", 9) == [Placeholder("linearAlgebra", 9)])
  {
    QuizQuestionsWellFormed();
    assert 9 !in QuizQuestions["linearAlgebra"];
  }

  /** On the inline bank, an unknown topic falls back to the placeholder. */
  lemma InlineBankMissingTopic()
    ensures (QuizQuestionsWellFormed(); GetQuestions(QuizQuestions, "calculus", 1) == [Placeholder("calculus", 1)])
  {
    QuizQuestionsWellFormed();
    assert "calculus" !in QuizQuestions;
  }

  // ===== The state hooks and the handlers =====

  datatype QuizState = QuizState(
    currentQuestionIndex: nat,
    selectedAnswer: Option<int>,
    showExplanation: bool,
    score: nat,
    quizCompleted: bool)

  const Start: QuizState := QuizState(0, None, false, 0, false)

  /** `handleAnswerSelect`. */
  function AnswerSelect(s: QuizState, answerIndex: int): QuizState {
    s.(selectedAnswer := Some(answerIndex))
  }

  /** `handleCheckAnswer`: without a selection nothing changes (the source only raises a toast);
      with one, the explanation is shown and a correct answer scores a point. */
  function CheckAnswer(qs: seq<QuizQuestion>, s: QuizState): QuizState
    requires s.currentQuestionIndex < |qs|
  {
    match s.selectedAnswer
    case None => s
    case Some(a) =>
      s.(showExplanation := true,
         score := if a == qs[s.currentQuestionIndex].correctAnswer then s.score + 1 else s.score)
  }

  /** `handleNextQuestion`. */
  function NextQuestion(qs: seq<QuizQuestion>, s: QuizState): QuizState {
    if s.currentQuestionIndex < |qs| - 1 then
      s.(currentQuestionIndex := s.currentQuestionIndex + 1, selectedAnswer := None, showExplanation := false)
    else s.(quizCompleted := true)
  }

  /** `resetQuiz`. */
  function Reset(s: QuizState): QuizState {
    Start
  }

  lemma CheckAnswerEffect(qs: seq<QuizQuestion>, s: QuizState)
    requires s.currentQuestionIndex < |qs|
    ensures s.selectedAnswer.None? ==> CheckAnswer(qs, s) == s
    ensures s.selectedAnswer.Some? ==>
      && CheckAnswer(qs, s).showExplanation
      && (CheckAnswer(qs, s).score == s.score + 1 <==> s.selectedAnswer.value == qs[s.currentQuestionIndex].correctAnswer)
      && CheckAnswer(qs, s).score <= s.score + 1
      && CheckAnswer(qs, s).(showExplanation := s.showExplanation, score := s.score) == s
  {
  }

  lemma NextQuestionEffect(qs: seq<QuizQuestion>, s: QuizState)
    requires s.currentQuestionIndex < |qs|
    ensures s.currentQuestionIndex == |qs| - 1 ==> NextQuestion(qs, s) == s.(quizCompleted := true)
    ensures s.currentQuestionIndex < |qs| - 1 ==>
      && NextQuestion(qs, s).currentQuestionIndex == s.currentQuestionIndex + 1
      && NextQuestion(qs, s).selectedAnswer.None? && !NextQuestion(qs, s).showExplanation
      && NextQuestion(qs, s).score == s.score && NextQuestion(qs, s).quizCompleted == s.quizCompleted
    ensures NextQuestion(qs, s).currentQuestionIndex < |qs|
  {
  }

  /** Resetting restores every hook and a second reset changes nothing. */
  lemma ResetIdempotent(s: QuizState)
    ensures Reset(s) == Start
    ensures Reset(Reset(s)) == Reset(s)
  {
  }

  // ===== The protocol the rendered panel imposes =====

  datatype QuizEvent = SelectAnswer(answerIndex: int) | Check | Next | Retry

  /** Answers are clickable and Check is shown only while the explanation is hidden (Check is
      disabled without a selection), Next only while it is shown, Retry only on the completion card. */
  predicate Allowed(s: QuizState, e: QuizEvent) {
    match e
    case SelectAnswer(_) => !s.quizCompleted && !s.showExplanation
    case Check => !s.quizCompleted && !s.showExplanation && s.selectedAnswer.Some?
    case Next => !s.quizCompleted && s.showExplanation
    case Retry => s.quizCompleted
  }

  function Step(qs: seq<QuizQuestion>, s: QuizState, e: QuizEvent): QuizState
    requires s.currentQuestionIndex < |qs|
  {
    match e
    case SelectAnswer(a) => AnswerSelect(s, a)
    case Check => CheckAnswer(qs, s)
    case Next => NextQuestion(qs, s)
    case Retry => Reset(s)
  }

  /** The index stays on a question, each question scores at most once, and the completion card
      is reached only with the last question's explanation shown. */
  predicate ProtocolInvariant(qs: seq<QuizQuestion>, s: QuizState) {
    && s.currentQuestionIndex < |qs|
    && s.score <= s.currentQuestionIndex + (if s.showExplanation then 1 else 0)
    && (s.quizCompleted ==> s.showExplanation && s.currentQuestionIndex == |qs| - 1)
  }

  lemma StartInvariant(qs: seq<QuizQuestion>)
    requires |qs| > 0
    ensures ProtocolInvariant(qs, Start)
  {
  }

  /** Every allowed event keeps the invariant. */
  lemma StepKeepsInvariant(qs: seq<QuizQuestion>, s: QuizState, e: QuizEvent)
    requires ProtocolInvariant(qs, s) && Allowed(s, e)
    ensures ProtocolInvariant(qs, Step(qs, s, e))
  {
  }

  /** Under the protocol the score never exceeds the number of questions. */
  lemma ScoreBounded(qs: seq<QuizQuestion>, s: QuizState)
    requires ProtocolInvariant(qs, s)
    ensures s.score <= |qs|
  {
  }

  /** The events allowed one after another from s. */
  predicate AllowedRun(qs: seq<QuizQuestion>, s: QuizState, es: seq<QuizEvent>)
    requires ProtocolInvariant(qs, s)
    decreases |es|
  {
    es == [] ||
    (Allowed(s, es[0]) &&
     (StepKeepsInvariant(qs, s, es[0]); AllowedRun(qs, Step(qs, s, es[0]), es[1..])))
  }

  function Run(qs: seq<QuizQuestion>, s: QuizState, es: seq<QuizEvent>): (r: QuizState)
    requires ProtocolInvariant(qs, s) && AllowedRun(qs, s, es)
    ensures ProtocolInvariant(qs, r)
    decreases |es|
  {
    if es == [] then s
    else
      StepKeepsInvariant(qs, s, es[0]);
      Run(qs, Step(qs, s, es[0]), es[1..])
  }

  /** However the panel is used, the score stays within [0, number of questions]. */
  lemma RunScoreBounded(qs: seq<QuizQuestion>, es: seq<QuizEvent>)
    requires |qs| > 0 && (StartInvariant(qs); AllowedRun(qs, Start, es))
    ensures Run(qs, Start, es).score <= |qs|
  {
    StartInvariant(qs);
    ScoreBounded(qs, Run(qs, Start, es));
  }

  // ===== What the completion toast and card report =====

  /** The completion toast's score, as written: the stored score plus one more point when the
      selected answer is correct, although checking that answer already scored it. */
  function ToastScoreAsWritten(qs: seq<QuizQuestion>, s: QuizState): int
    requires s.currentQuestionIndex < |qs|
  {
    s.score + (if s.selectedAnswer == Some(qs[s.currentQuestionIndex].correctAnswer) then 1 else 0)
  }

  /** The score the toast is meant to report: the stored score, which already counts the last
      answer. It differs from the toast as written only when the selected answer is correct,
      and then by the point counted twice. */
  function ToastScore(qs: seq<QuizQuestion>, s: QuizState): (r: nat)
    requires s.currentQuestionIndex < |qs|
    ensures s.selectedAnswer != Some(qs[s.currentQuestionIndex].correctAnswer) ==> r == ToastScoreAsWritten(qs, s)
    ensures s.selectedAnswer == Some(qs[s.currentQuestionIndex].correctAnswer) ==> r == ToastScoreAsWritten(qs, s) - 1
    ensures ProtocolInvariant(qs, s) ==> r <= |qs|
  {
    s.score
  }

  /** A one-question quiz answered correctly: the toast as written reports 2 out of 1. */
  lemma ToastDoubleCounts()
    ensures var qs := [BankQuestion("la1", 1, 0)];
      var done := Run(qs, Start, [SelectAnswer(0), Check, Next]);
      && done.quizCompleted
      && done.score == 1
      && ToastScoreAsWritten(qs, done) == 2 > |qs|
  {
    var qs := [BankQuestion("la1", 1, 0)];
    var s1 := AnswerSelect(Start, 0);
    var s2 := CheckAnswer(qs, s1);
    assert s2.score == 1;
    assert AllowedRun(qs, Start, [SelectAnswer(0), Check, Next]) by {
      assert [SelectAnswer(0), Check, Next][1..] == [Check, Next];
      assert [Check, Next][1..] == [Next];
      assert [Next][1..] == [];
    }
  }

  /** When the last question is completed, the corrected toast reports the score the
      completion card shows, which never exceeds the number of questions. */
  lemma ToastWithinQuestions(qs: seq<QuizQuestion>, s: QuizState)
    requires ProtocolInvariant(qs, s) && Allowed(s, Next) && s.currentQuestionIndex == |qs| - 1
    ensures NextQuestion(qs, s).quizCompleted
    ensures ToastScore(qs, s) == NextQuestion(qs, s).score
    ensures 0 <= ToastScore(qs, s) <= |qs|
  {
  }

  datatype Verdict = Perfect | GoodJob | KeepStudying

  /** The message on the completion card (`score >= questions.length / 2` with real division). */
  function VerdictFor(score: nat, n: nat): (v: Verdict)
    ensures v == Perfect <==> score == n
    ensures v == GoodJob <==> score != n && 2 * score >= n
    ensures v == KeepStudying <==> score != n && 2 * score < n
  {
    if score == n then Perfect
    else if score as real >= n as real / 2.0 then GoodJob
    else KeepStudying
  }

  // ===== The component =====

  class QuizPanel {
    const questions: seq<QuizQuestion>
    var currentQuestionIndex: nat
    var selectedAnswer: Option<int>
    var showExplanation: bool
    var score: nat
    var quizCompleted: bool

    ghost function State(): QuizState
      reads this
    {
      QuizState(currentQuestionIndex, selectedAnswer, showExplanation, score, quizCompleted)
    }

    ghost predicate Valid()
      reads this
    {
      ProtocolInvariant(questions, State())
    }

    /** The panel for a topic and chapter, over the given bank. */
    constructor(bank: map<string, map<int, seq<QuizQuestion>>>, topic: string, chapter: int)
      requires BankWellFormed(bank)
      ensures questions == GetQuestions(bank, topic, chapter) && State() == Start && Valid()
    {
      questions := GetQuestions(bank, topic, chapter);
      currentQuestionIndex := 0;
      selectedAnswer := None;
      showExplanation := false;
      score := 0;
      quizCompleted := false;
    }

    method HandleAnswerSelect(answerIndex: int)
      modifies this
      ensures State() == AnswerSelect(old(State()), answerIndex)
    {
      selectedAnswer := Some(answerIndex);
    }

    method HandleCheckAnswer()
      requires currentQuestionIndex < |questions|
      modifies this
      ensures State() == CheckAnswer(questions, old(State()))
    {
      if selectedAnswer.None? {
        return;
      }
      showExplanation := true;
      if selectedAnswer.value == questions[currentQuestionIndex].correctAnswer {
        score := score + 1;
      }
    }

    /** Returns the score the completion toast reports when the quiz completes, as written:
        the stored score plus a point for a correct selected answer. */
    method HandleNextQuestion() returns (toast: Option<int>)
      requires currentQuestionIndex < |questions|
      modifies this
      ensures State() == NextQuestion(questions, old(State()))
      ensures toast == if old(currentQuestionIndex) < |questions| - 1 then None else Some(ToastScoreAsWritten(questions, old(State())))
    {
      if currentQuestionIndex < |questions| - 1 {
        currentQuestionIndex := currentQuestionIndex + 1;
        selectedAnswer := None;
        showExplanation := false;
        toast := None;
      } else {
        quizCompleted := true;
        var bonus := if selectedAnswer == Some(questions[currentQuestionIndex].correctAnswer) then 1 else 0;
        toast := Some(score + bonus);
      }
    }

    method ResetQuiz()
      modifies this
      ensures State() == Reset(old(State()))
    {
      currentQuestionIndex := 0;
      selectedAnswer := None;
      showExplanation := false;
      score := 0;
      quizCompleted := false;
    }

    /** One user event the rendered panel allows; the panel stays valid. */
    method OnEvent(e: QuizEvent)
      requires Valid() && Allowed(State(), e)
      modifies this
      ensures State() == Step(questions, old(State()), e)
      ensures Valid()
    {
      StepKeepsInvariant(questions, State(), e);
      match e {
        case SelectAnswer(a) => HandleAnswerSelect(a);
        case Check => HandleCheckAnswer();
        case Next => var _ := HandleNextQuestion();
        case Retry => ResetQuiz();
      }
    }
  }
}
