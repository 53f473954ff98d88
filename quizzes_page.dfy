/**
 * The quiz overview: which month's quiz is coming soon, locked or available,
 * where a click leads, and how many quizzes are available.
 */
module QuizzesPage {
  import opened Wrappers
  import opened Dates
  import opened Quizzes
  import opened UserProgress

  datatype QuizStatus = ComingSoon | Available | Locked

  datatype MonthStatus = MonthStatus(status: QuizStatus, canTakeQuiz: bool)

  /**
   * `getMonthStatus`: coming soon without a built-in quiz, otherwise available
   * once the month's lessons (of the current year) are completed, else locked.
   */
  function GetMonthStatus(lessons: seq<Date>, month: int, currentYear: nat): (s: MonthStatus)
    ensures s.canTakeQuiz <==> s.status == Available
    ensures s.status == ComingSoon <==> !(1 <= month <= 4)
    ensures s.status == Available <==> 1 <= month <= 4 && MonthCompleted(lessons, month, None, currentYear)
  {
    TableQuizMonths(month);
    if !HasQuizForMonth(MonthlyQuizTable(), month) then MonthStatus(ComingSoon, false)
    else if MonthCompleted(lessons, month, None, currentYear) then MonthStatus(Available, true)
    else MonthStatus(Locked, false)
  }

  /**
   * `handleQuizClick`: the month whose quiz page is opened, or `None` when the
   * quiz cannot be taken; an opened quiz page always finds its quiz.
   */
  function HandleQuizClick(lessons: seq<Date>, month: int, currentYear: nat): (route: Option<int>)
    ensures route.Some? <==> GetMonthStatus(lessons, month, currentYear).canTakeQuiz
    ensures route.Some? ==> route.value == month && GetQuizForMonth(MonthlyQuizTable(), month).Some?
  {
    TableQuizMonths(month);
    if GetMonthStatus(lessons, month, currentYear).canTakeQuiz then Some(month) else None
  }

  /** Number of the first `k` quizzes whose month is completed. */
  function CompletedQuizCount(quizzes: seq<MonthlyQuiz>, lessons: seq<Date>, currentYear: nat, k: nat): (n: nat)
    requires k <= |quizzes|
    ensures n <= k
  {
    if k == 0 then 0
    else
      var done := MonthCompleted(lessons, quizzes[k - 1].month, None, currentYear);
      CompletedQuizCount(quizzes, lessons, currentYear, k - 1) + if done then 1 else 0
  }

  /** `availableQuizzes`: how many built-in quizzes belong to a completed month. */
  function AvailableQuizzes(lessons: seq<Date>, currentYear: nat): (n: nat)
    ensures n <= |MonthlyQuizTable()|
  {
    CompletedQuizCount(MonthlyQuizTable(), lessons, currentYear, |MonthlyQuizTable()|)
  }

  /** Number of the months 1..k whose status is available. */
  function AvailableMonthCount(lessons: seq<Date>, currentYear: nat, k: nat): nat {
    if k == 0 then 0
    else
      var available := GetMonthStatus(lessons, k, currentYear).status == Available;
      AvailableMonthCount(lessons, currentYear, k - 1) + if available then 1 else 0
  }

  lemma {:induction false} QuizCountMatchesMonths(lessons: seq<Date>, currentYear: nat, k: nat)
    requires k <= 4
    ensures CompletedQuizCount(MonthlyQuizTable(), lessons, currentYear, k) == AvailableMonthCount(lessons, currentYear, k)
  {
    if k > 0 {
      QuizCountMatchesMonths(lessons, currentYear, k - 1);
      assert MonthlyQuizTable()[k - 1].month == k;
    }
  }

  /** No month after April is available, so counting further months adds nothing. */
  lemma {:induction false} NoneAvailableAfterApril(lessons: seq<Date>, currentYear: nat, j: nat, k: nat)
    requires 4 <= j <= k
    ensures AvailableMonthCount(lessons, currentYear, k) == AvailableMonthCount(lessons, currentYear, j)
  {
    if k > j {
      NoneAvailableAfterApril(lessons, currentYear, j, k - 1);
      assert GetMonthStatus(lessons, k, currentYear).status != Available;
    }
  }

  /** The count of available quizzes is the number of months, of the twelve shown, marked available. */
  lemma AvailableQuizzesCountsAvailableMonths(lessons: seq<Date>, currentYear: nat)
    ensures AvailableQuizzes(lessons, currentYear) == AvailableMonthCount(lessons, currentYear, 12)
  {
    QuizCountMatchesMonths(lessons, currentYear, 4);
    NoneAvailableAfterApril(lessons, currentYear, 4, 12);
  }
}
