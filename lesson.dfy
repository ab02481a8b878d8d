/**
 * Lesson: the quiz page's five state fields and the three handlers that change them.
 */
module Lesson {
  import opened Wrappers
  import Percent

  /** A question reduced to what the handlers use: its number of options and the correct one. */
  datatype Question = Question(id: int, optionCount: nat, correctAnswer: int)

  const Questions: seq<Question> := [Question(1, 4, 3), Question(2, 4, 2), Question(3, 4, 2)]

  /** XP announced at the end of the quiz. */
  const XpPerCorrectAnswer := 10

  /** The header bar: `((currentQuestion + 1) / questions.length) * 100`. */
  function QuizProgress(currentQuestion: int): (p: real)
    ensures 0 <= currentQuestion < |Questions| ==> 0.0 < p <= 100.0
    ensures p == 100.0 <==> currentQuestion == |Questions| - 1
  {
    Percent.StepPercent(currentQuestion, |Questions|)
  }

  class Quiz {
    var currentQuestion: int
    var selectedAnswer: Option<int>
    var showFeedback: bool
    var correctAnswers: int
    var answeredQuestions: int

    /** What every handler keeps, whatever order they are called in. */
    ghost predicate Valid()
      reads this
    {
      0 <= currentQuestion < |Questions| && 0 <= correctAnswers <= answeredQuestions
    }

    /**
     * What holds as long as the handlers are only reached through the page's buttons: at most one
     * check per question, so at most currentQuestion + 1 answers and only once feedback is shown.
     */
    ghost predicate Gated()
      reads this
    {
      Valid() && answeredQuestions <= currentQuestion + (if showFeedback then 1 else 0)
    }

    constructor ()
      ensures currentQuestion == 0 && selectedAnswer == None && !showFeedback
      ensures correctAnswers == 0 && answeredQuestions == 0
      ensures Gated()
    {
      currentQuestion := 0;
      selectedAnswer := None;
      showFeedback := false;
      correctAnswers := 0;
      answeredQuestions := 0;
    }

    /** `handleAnswerSelect`: ignored while feedback is shown, otherwise records the selection. */
    method AnswerSelect(index: int)
      requires Valid()
      modifies this`selectedAnswer
      ensures Valid() && (old(Gated()) ==> Gated())
      ensures selectedAnswer == if old(showFeedback) then old(selectedAnswer) else Some(index)
    {
      if showFeedback {
        return;
      }
      selectedAnswer := Some(index);
    }

    /**
     * `handleCheckAnswer`: ignored without a selection; otherwise shows feedback, counts one more
     * answer and one more correct answer exactly when the selection is the correct option. The
     * handler has no feedback guard of its own: only the button hides it once feedback is shown.
     */
    method CheckAnswer()
      requires Valid()
      modifies this`showFeedback, this`answeredQuestions, this`correctAnswers
      ensures Valid()
      ensures old(selectedAnswer).None? ==>
        showFeedback == old(showFeedback) && answeredQuestions == old(answeredQuestions) &&
        correctAnswers == old(correctAnswers)
      ensures old(selectedAnswer).Some? ==>
        showFeedback && answeredQuestions == old(answeredQuestions) + 1 &&
        correctAnswers == old(correctAnswers) +
          (if old(selectedAnswer).value == Questions[currentQuestion].correctAnswer then 1 else 0)
      ensures old(Gated()) && !old(showFeedback) ==> Gated()
    {
      if selectedAnswer.None? {
        return;
      }
      showFeedback := true;
      answeredQuestions := answeredQuestions + 1;
      if selectedAnswer.value == Questions[currentQuestion].correctAnswer {
        correctAnswers := correctAnswers + 1;
      }
    }

    /**
     * `handleNextQuestion`: before the last question move on and clear the selection and the
     * feedback; at the last question announce `10 * correctAnswers` XP and change nothing.
     */
    method NextQuestion() returns (xpEarned: Option<int>)
      requires Valid()
      modifies this`currentQuestion, this`selectedAnswer, this`showFeedback
      ensures Valid() && (old(Gated()) ==> Gated())
      ensures correctAnswers == old(correctAnswers) && answeredQuestions == old(answeredQuestions)
      ensures old(currentQuestion) < |Questions| - 1 ==>
        xpEarned.None? && currentQuestion == old(currentQuestion) + 1 &&
        selectedAnswer.None? && !showFeedback
      ensures old(currentQuestion) == |Questions| - 1 ==>
        xpEarned == Some(XpPerCorrectAnswer * correctAnswers) &&
        currentQuestion == old(currentQuestion) && selectedAnswer == old(selectedAnswer) &&
        showFeedback == old(showFeedback)
      ensures xpEarned.Some? && old(Gated()) ==> 0 <= xpEarned.value <= XpPerCorrectAnswer * |Questions|
    {
      if currentQuestion < |Questions| - 1 {
        currentQuestion := currentQuestion + 1;
        selectedAnswer := None;
        showFeedback := false;
        xpEarned := None;
      } else {
        xpEarned := Some(correctAnswers * XpPerCorrectAnswer);
      }
    }
  }

  /**
   * A worked scenario, not an operation of the page: three correct answers, each selected, checked
   * and followed by "next" through the buttons, announce 30 XP. The loop stands for the user's
   * clicks; the bound for every run is `NextQuestion`'s own contract.
   */
  method AllCorrect() returns (xp: Option<int>)
    ensures xp == Some(30)
  {
    xp := None;
    var quiz := new Quiz();
    var i := 0;
    while i < |Questions|
      invariant 0 <= i <= |Questions|
      invariant quiz.Gated() && quiz.correctAnswers == i && quiz.answeredQuestions == i
      invariant i < |Questions| ==> quiz.currentQuestion == i && !quiz.showFeedback
      invariant i == |Questions| ==> quiz.currentQuestion == |Questions| - 1 && quiz.showFeedback
      invariant xp.None?
      modifies quiz
    {
      quiz.AnswerSelect(Questions[quiz.currentQuestion].correctAnswer);
      quiz.CheckAnswer();
      if i < |Questions| - 1 {
        xp := quiz.NextQuestion();
      }
      i := i + 1;
    }
    xp := quiz.NextQuestion();
  }
}
