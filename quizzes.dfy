/** The built-in monthly quizzes and the lookups over them. */
module Quizzes {
  import opened Wrappers

  /** `correctAnswer` is meant as a 0-based index into `options`. */
  datatype QuizQuestion = QuizQuestion(
    id: int,
    question: string,
    options: seq<string>,
    correctAnswer: int,
    explanation: Option<string>)

  /** `passingScore` is the percentage needed to pass. */
  datatype MonthlyQuiz = MonthlyQuiz(
    month: int,
    title: string,
    description: string,
    questions: seq<QuizQuestion>,
    passingScore: int)

  predicate AnswerIndexValid(q: QuizQuestion) {
    0 <= q.correctAnswer < |q.options|
  }

  /** The correct answers of the built-in quizzes, month by month, question by question. */
  const CorrectAnswers: seq<seq<nat>> := [
    [1, 2, 1, 2, 2],
    [1, 0, 1, 0, 2],
    [1, 2, 1, 0, 3],
    [1, 2, 1, 0, 3]
  ]

  /** Question `j` (id `j + 1`, four options) of the quiz for month `m + 1`; prose left out. */
  function TableQuestion(m: nat, j: nat): QuizQuestion
    requires m < 4 && j < 5
  {
    QuizQuestion(j + 1, "", ["", "", "", ""], CorrectAnswers[m][j], Some(""))
  }

  function TableQuiz(m: nat): MonthlyQuiz
    requires m < 4
  {
    MonthlyQuiz(m + 1, "", "", seq(5, j requires 0 <= j < 5 => TableQuestion(m, j)), 70)
  }

  /**
   * The built-in quizzes: one per month for January to April, five questions
   * each, pass mark 70, every correct answer an index into its options.
   */
  function MonthlyQuizTable(): (t: seq<MonthlyQuiz>)
    ensures |t| == 4
    ensures forall i :: 0 <= i < |t| ==> t[i].month == i + 1
    ensures forall i :: 0 <= i < |t| ==> |t[i].questions| == 5 && t[i].passingScore == 70
    ensures forall i, j :: 0 <= i < |t| && 0 <= j < |t[i].questions| ==>
      AnswerIndexValid(t[i].questions[j]) && t[i].questions[j].id == j + 1
  {
    seq(4, m requires 0 <= m < 4 => TableQuiz(m))
  }

  /**
   * `quizzes.find(q => q.month === month)`: the first quiz for the month in table
   * order, or `None`.
   */
  function GetQuizForMonth(quizzes: seq<MonthlyQuiz>, month: int): (r: Option<MonthlyQuiz>)
    ensures r.None? <==> forall i :: 0 <= i < |quizzes| ==> quizzes[i].month != month
    ensures r.Some? ==> r.value.month == month
    ensures r.Some? ==> exists k :: (0 <= k < |quizzes| && quizzes[k] == r.value
      && forall j :: 0 <= j < k ==> quizzes[j].month != month)
  {
    if quizzes == [] then None
    else if quizzes[0].month == month then Some(quizzes[0])
    else
      var r := GetQuizForMonth(quizzes[1..], month);
      assert r.Some? ==> exists k :: (0 <= k < |quizzes| && quizzes[k] == r.value
        && forall j :: 0 <= j < k ==> quizzes[j].month != month) by {
        if r.Some? {
          var k :| 0 <= k < |quizzes[1..]| && quizzes[1..][k] == r.value
            && forall j :: 0 <= j < k ==> quizzes[1..][j].month != month;
          assert quizzes[k + 1] == r.value;
          forall j | 0 <= j < k + 1 ensures quizzes[j].month != month {
            if j > 0 { assert quizzes[j] == quizzes[1..][j - 1]; }
          }
        }
      }
      r
  }

  /** `quizzes.some(q => q.month === month)`. */
  predicate HasQuizForMonth(quizzes: seq<MonthlyQuiz>, month: int): (b: bool)
    ensures b <==> GetQuizForMonth(quizzes, month).Some?
  {
    exists i :: 0 <= i < |quizzes| && quizzes[i].month == month
  }

  /** In the built-in table exactly January to April have a quiz, and the lookup finds that month's. */
  lemma TableQuizMonths(month: int)
    ensures HasQuizForMonth(MonthlyQuizTable(), month) <==> 1 <= month <= 4
    ensures 1 <= month <= 4 ==> GetQuizForMonth(MonthlyQuizTable(), month) == Some(MonthlyQuizTable()[month - 1])
  {
    var t := MonthlyQuizTable();
    if 1 <= month <= 4 {
      assert t[month - 1].month == month;
    }
  }
}
