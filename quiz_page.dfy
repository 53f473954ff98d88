/**
 * A quiz session: the question index, the selected answers, the score and
 * whether the results are shown, changed step by step by the page's handlers.
 */
module QuizPage {
  import opened Wrappers
  import opened Quizzes

  /** The pass mark used when there is no quiz or its pass mark is 0. */
  const DefaultPassingScore := 70

  /**
   * `answers[i] = v` on a JavaScript array: position `i` becomes `v`; writing past
   * the end grows the array, leaving holes (`None`) in between.
   */
  function SetAnswer(answers: seq<Option<int>>, i: nat, v: int): (r: seq<Option<int>>)
    ensures |r| == if i < |answers| then |answers| else i + 1
    ensures r[i] == Some(v)
    ensures forall j :: 0 <= j < |r| && j != i ==> r[j] == if j < |answers| then answers[j] else None
  {
    if i < |answers| then answers[i := Some(v)]
    else answers + seq(i - |answers|, _ => None) + [Some(v)]
  }

  /** Whether the answer selected for question `i` is its correct answer (a hole never is). */
  predicate AnsweredCorrectly(questions: seq<QuizQuestion>, answers: seq<Option<int>>, i: nat)
    requires i < |questions|
  {
    i < |answers| && answers[i] == Some(questions[i].correctAnswer)
  }

  /** Number of the first `k` questions answered correctly. */
  function CorrectCount(questions: seq<QuizQuestion>, answers: seq<Option<int>>, k: nat): (c: nat)
    requires k <= |questions|
    ensures c <= k
    ensures c == k <==> forall i :: 0 <= i < k ==> AnsweredCorrectly(questions, answers, i)
  {
    if k == 0 then 0
    else CorrectCount(questions, answers, k - 1) + (if AnsweredCorrectly(questions, answers, k - 1) then 1 else 0)
  }

  /** Quotient bounds of Euclidean division, by a positive divisor. */
  lemma DivisionBounds(a: nat, b: nat)
    requires b > 0
    ensures b * (a / b) <= a < b * (a / b) + b
  {
  }

  /** Multiplying by a non-negative factor keeps the order. */
  lemma ScaleMono(b: nat, x: int, y: int)
    requires x <= y
    ensures b * x <= b * y
  {
    var d: nat := y - x;
    assert b * y == b * x + b * d;
  }

  /** Multiplying by a positive factor keeps the order, in both directions. */
  lemma ScaleOrder(b: nat, x: int, y: int)
    requires b > 0
    ensures x <= y <==> b * x <= b * y
  {
    if x <= y {
      ScaleMono(b, x, y);
    } else {
      ScaleMono(b, y + 1, x);
      assert b * (y + 1) == b * y + b;
    }
  }

  /** `p` is the halves-up rounding of `100 * correct / total` when it lies in the right half-open slot. */
  lemma RoundingSlot(correct: nat, total: nat, p: int)
    requires total > 0
    requires (2 * total) * p <= 200 * correct + total < (2 * total) * p + 2 * total
    ensures total * (2 * p - 1) <= 200 * correct < total * (2 * p + 1)
    ensures correct <= total ==> 0 <= p <= 100
  {
    var b := 2 * total;
    assert total * (2 * p - 1) == b * p - total;
    assert total * (2 * p + 1) == b * p + total;
    ScaleOrder(b, p, -1);
    ScaleOrder(b, 101, p);
  }

  /**
   * `Math.round((correct / total) * 100)`: the percentage rounded to the nearest
   * integer, halves upwards; `None` stands for NaN when there are no questions.
   */
  function RoundedPercent(correct: nat, total: nat): (r: Option<int>)
    ensures r.None? <==> total == 0
    ensures r.Some? ==> total * (2 * r.value - 1) <= 200 * correct < total * (2 * r.value + 1)
    ensures r.Some? && correct <= total ==> 0 <= r.value <= 100
  {
    if total == 0 then None
    else
      var p := (200 * correct + total) / (2 * total);
      DivisionBounds(200 * correct + total, 2 * total);
      RoundingSlot(correct, total, p);
      Some(p)
  }

  /** `score >= (quiz?.passingScore || 70)`; a NaN score never passes. */
  predicate Passed(score: Option<int>, quiz: Option<MonthlyQuiz>): (b: bool)
    ensures score.None? ==> !b
    ensures quiz.Some? && quiz.value.passingScore != 0 ==> (b <==> score.Some? && score.value >= quiz.value.passingScore)
    ensures quiz.None? || quiz.value.passingScore == 0 ==> (b <==> score.Some? && score.value >= DefaultPassingScore)
  {
    var mark := if quiz.None? || quiz.value.passingScore == 0 then DefaultPassingScore else quiz.value.passingScore;
    score.Some? && score.value >= mark
  }

  /** A built-in quiz (five questions, pass mark 70) is passed with four or more correct answers, not with three. */
  lemma {:induction false} TableQuizPassMark(m: nat, correct: nat)
    requires m < 4 && correct <= 5
    ensures Passed(RoundedPercent(correct, 5), Some(MonthlyQuizTable()[m])) <==> correct >= 4
  {
    var r := RoundedPercent(correct, 5);
    assert 5 * (2 * r.value - 1) <= 200 * correct < 5 * (2 * r.value + 1);
  }

  /** The counting loop of `calculateScore`. */
  method CountCorrectAnswers(questions: seq<QuizQuestion>, selectedAnswers: seq<Option<int>>) returns (correctAnswers: nat)
    ensures correctAnswers == CorrectCount(questions, selectedAnswers, |questions|)
  {
    correctAnswers := 0;
    for index := 0 to |questions|
      invariant correctAnswers == CorrectCount(questions, selectedAnswers, index)
    {
      if index < |selectedAnswers| && selectedAnswers[index] == Some(questions[index].correctAnswer) {
        correctAnswers := correctAnswers + 1;
      }
    }
  }

  class QuizSession {
    /** The quiz found for the route's month, if any. */
    const quiz: Option<MonthlyQuiz>
    var currentQuestionIndex: nat
    var selectedAnswers: seq<Option<int>>
    var showResults: bool
    /** The last computed percentage; `None` is NaN. */
    var score: Option<int>

    /**
     * The index stays on a question (or at 0), and a score is a percentage, or NaN
     * only for a quiz without questions.
     */
    ghost predicate Valid()
      reads this
    {
      (currentQuestionIndex == 0 || (quiz.Some? && currentQuestionIndex < |quiz.value.questions|))
      && (score.Some? ==> 0 <= score.value <= 100)
      && (score.None? ==> quiz.Some? && |quiz.value.questions| == 0)
    }

    constructor (quiz: Option<MonthlyQuiz>)
      ensures Valid() && this.quiz == quiz
      ensures currentQuestionIndex == 0 && selectedAnswers == [] && !showResults && score == Some(0)
    {
      this.quiz := quiz;
      currentQuestionIndex, selectedAnswers, showResults, score := 0, [], false, Some(0);
    }

    /** `handleAnswerSelect`: records the answer for the current question only. */
    method HandleAnswerSelect(answerIndex: int)
      requires Valid()
      modifies this
      ensures Valid()
      ensures selectedAnswers == SetAnswer(old(selectedAnswers), currentQuestionIndex, answerIndex)
      ensures currentQuestionIndex == old(currentQuestionIndex) && showResults == old(showResults) && score == old(score)
    {
      selectedAnswers := SetAnswer(selectedAnswers, currentQuestionIndex, answerIndex);
    }

    /** `calculateScore`: nothing without a quiz; otherwise the rounded percentage correct, and the results shown. */
    method CalculateScore()
      requires Valid()
      modifies this
      ensures Valid()
      ensures currentQuestionIndex == old(currentQuestionIndex) && selectedAnswers == old(selectedAnswers)
      ensures quiz.None? ==> score == old(score) && showResults == old(showResults)
      ensures quiz.Some? ==>
                (showResults &&
                 score == RoundedPercent(CorrectCount(quiz.value.questions, selectedAnswers, |quiz.value.questions|),
                                         |quiz.value.questions|))
    {
      if quiz.None? {
        return;
      }
      var questions := quiz.value.questions;
      var correctAnswers := CountCorrectAnswers(questions, selectedAnswers);
      score := RoundedPercent(correctAnswers, |questions|);
      showResults := true;
    }

    /**
     * `handleNext`: moves to the next question while there is one; on the last
     * question (or without a quiz) it computes the score instead.
     */
    method HandleNext()
      requires Valid()
      modifies this
      ensures Valid()
      ensures selectedAnswers == old(selectedAnswers)
      ensures quiz.Some? && old(currentQuestionIndex) + 1 < |quiz.value.questions| ==>
                (currentQuestionIndex == old(currentQuestionIndex) + 1 &&
                 showResults == old(showResults) && score == old(score))
      ensures quiz.Some? && old(currentQuestionIndex) + 1 >= |quiz.value.questions| ==>
                (currentQuestionIndex == old(currentQuestionIndex) && showResults &&
                 score == RoundedPercent(CorrectCount(quiz.value.questions, selectedAnswers, |quiz.value.questions|),
                                         |quiz.value.questions|))
      ensures quiz.None? ==>
                (currentQuestionIndex == old(currentQuestionIndex) && score == old(score) &&
                 showResults == old(showResults))
    {
      if quiz.Some? && currentQuestionIndex < |quiz.value.questions| - 1 {
        currentQuestionIndex := currentQuestionIndex + 1;
      } else {
        CalculateScore();
      }
    }

    /** `handlePrevious`: steps back unless on the first question. */
    method HandlePrevious()
      requires Valid()
      modifies this
      ensures Valid()
      ensures currentQuestionIndex == if old(currentQuestionIndex) > 0 then old(currentQuestionIndex) - 1 else 0
      ensures selectedAnswers == old(selectedAnswers) && showResults == old(showResults) && score == old(score)
    {
      if currentQuestionIndex > 0 {
        currentQuestionIndex := currentQuestionIndex - 1;
      }
    }

    /** `resetQuiz`: back to the first question, no answers, no results, score 0. */
    method ResetQuiz()
      requires Valid()
      modifies this
      ensures Valid()
      ensures currentQuestionIndex == 0 && selectedAnswers == [] && !showResults && score == Some(0)
    {
      currentQuestionIndex, selectedAnswers, showResults, score := 0, [], false, Some(0);
    }

    /** `isPassed`. */
    function IsPassed(): (b: bool)
      reads this
      ensures b ==> score.Some?
      ensures b <==> Passed(score, quiz)
    {
      Passed(score, quiz)
    }
  }
}
