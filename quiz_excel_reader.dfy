/**
 * Loading quizzes from a spreadsheet: one row per question, grouped into one
 * quiz per month, quizzes ordered by month and questions by id, with a cache.
 */
module QuizExcelReader {
  import opened Wrappers
  import opened Quizzes

  /** One spreadsheet row, named after its columns. */
  datatype QuizExcelRow = QuizExcelRow(
    Month: int, QuizTitle: string, QuizDescription: string, PassingScore: int,
    QuestionId: int, Question: string,
    Option1: string, Option2: string, Option3: string, Option4: string,
    CorrectAnswer: int, Explanation: Option<string>)

  const DefaultQuizPath := "/quizzes.xlsx"

  /** The `filePath` parameter with its default: an omitted path is the quiz workbook. */
  function FilePath(filePath: Option<string>): (path: string)
    ensures filePath.Some? ==> path == filePath.value
    ensures filePath.None? ==> path == DefaultQuizPath
  {
    if filePath.Some? then filePath.value else DefaultQuizPath
  }

  /** The error thrown when the spreadsheet cannot be fetched. */
  function NotFoundMessage(path: string): string {
    "Quiz Excel file not found: " + path + ". Make sure the file is in the public directory."
  }

  /** The question a row describes. */
  function RowQuestion(row: QuizExcelRow): QuizQuestion {
    QuizQuestion(row.QuestionId, row.Question, [row.Option1, row.Option2, row.Option3, row.Option4],
                 row.CorrectAnswer, row.Explanation)
  }

  /** The quiz a month's first row opens, before any question is added. */
  function QuizHeader(row: QuizExcelRow): MonthlyQuiz {
    MonthlyQuiz(row.Month, row.QuizTitle, row.QuizDescription, [], row.PassingScore)
  }

  /** The months that occur in the rows. */
  function RowMonths(rows: seq<QuizExcelRow>): set<int> {
    set row | row in rows :: row.Month
  }

  lemma RowMonthsSnoc(rows: seq<QuizExcelRow>, row: QuizExcelRow)
    ensures RowMonths(rows + [row]) == RowMonths(rows) + {row.Month}
  {
    assert forall x :: x in rows + [row] <==> x in rows || x == row;
  }

  /** The questions of the rows for month `m`, in row order. */
  function QuestionsFor(rows: seq<QuizExcelRow>, m: int): (qs: seq<QuizQuestion>)
    ensures |qs| == 0 <==> m !in RowMonths(rows)
    ensures |qs| <= |rows|
  {
    if rows == [] then []
    else
      var n := |rows| - 1;
      assert rows == rows[..n] + [rows[n]];
      RowMonthsSnoc(rows[..n], rows[n]);
      QuestionsFor(rows[..n], m) + if rows[n].Month == m then [RowQuestion(rows[n])] else []
  }

  /** Every row's question is among the questions of its month. */
  lemma {:induction false} RowQuestionListed(rows: seq<QuizExcelRow>, i: nat)
    requires i < |rows|
    ensures RowQuestion(rows[i]) in QuestionsFor(rows, rows[i].Month)
  {
    var n := |rows| - 1;
    if i < n {
      RowQuestionListed(rows[..n], i);
    }
  }

  /** Every question listed for month `m` is the question of a row for that month. */
  lemma {:induction false} ListedQuestionFromRow(rows: seq<QuizExcelRow>, m: int, q: QuizQuestion)
    requires q in QuestionsFor(rows, m)
    ensures exists i :: 0 <= i < |rows| && rows[i].Month == m && q == RowQuestion(rows[i])
  {
    var n := |rows| - 1;
    if q in QuestionsFor(rows[..n], m) {
      ListedQuestionFromRow(rows[..n], m, q);
      var i :| 0 <= i < n && rows[..n][i].Month == m && q == RowQuestion(rows[..n][i]);
      assert rows[i] == rows[..n][i];
    }
  }

  /** The first row for month `m`, whose title, description and pass mark the quiz takes. */
  function FirstRowFor(rows: seq<QuizExcelRow>, m: int): (r: Option<QuizExcelRow>)
    ensures r.Some? <==> m in RowMonths(rows)
    ensures r.Some? ==> exists k :: (0 <= k < |rows| && rows[k] == r.value && r.value.Month == m
      && forall j :: 0 <= j < k ==> rows[j].Month != m)
  {
    if rows == [] then None
    else
      var n := |rows| - 1;
      assert rows == rows[..n] + [rows[n]];
      RowMonthsSnoc(rows[..n], rows[n]);
      var f := FirstRowFor(rows[..n], m);
      if f.Some? then f
      else if rows[n].Month == m then Some(rows[n])
      else None
  }

  predicate SortedById(qs: seq<QuizQuestion>) {
    forall i, j :: 0 <= i < j < |qs| ==> qs[i].id <= qs[j].id
  }

  predicate MonthsIncreasing(quizzes: seq<MonthlyQuiz>) {
    forall i, j :: 0 <= i < j < |quizzes| ==> quizzes[i].month < quizzes[j].month
  }

  function QuizMonths(quizzes: seq<MonthlyQuiz>): set<int> {
    set q | q in quizzes :: q.month
  }

  /**
   * What loading promises: one quiz per month occurring in the rows, in increasing
   * month order, headed by that month's first row, holding exactly that month's
   * questions sorted by id.
   */
  ghost predicate IsGroupingOf(rows: seq<QuizExcelRow>, quizzes: seq<MonthlyQuiz>) {
    && MonthsIncreasing(quizzes)
    && QuizMonths(quizzes) == RowMonths(rows)
    && (forall i :: 0 <= i < |quizzes| ==>
          var first := FirstRowFor(rows, quizzes[i].month);
          && first.Some?
          && quizzes[i].title == first.value.QuizTitle
          && quizzes[i].description == first.value.QuizDescription
          && quizzes[i].passingScore == first.value.PassingScore)
    && (forall i :: 0 <= i < |quizzes| ==>
          && SortedById(quizzes[i].questions)
          && multiset(quizzes[i].questions) == multiset(QuestionsFor(rows, quizzes[i].month)))
  }

  /** The quiz of month `m` after the rows seen so far. */
  function GroupedQuiz(rows: seq<QuizExcelRow>, m: int): (q: MonthlyQuiz)
    requires m in RowMonths(rows)
    ensures q.month == m
  {
    QuizHeader(FirstRowFor(rows, m).value).(questions := QuestionsFor(rows, m))
  }

  predicate Distinct(order: seq<int>) {
    forall a, b :: 0 <= a < b < |order| ==> order[a] != order[b]
  }

  /** How the quiz of month `m` changes when one more row is read. */
  lemma GroupedQuizSnoc(rows: seq<QuizExcelRow>, row: QuizExcelRow, m: int)
    requires m in RowMonths(rows + [row])
    ensures m in RowMonths(rows) && row.Month != m ==> GroupedQuiz(rows + [row], m) == GroupedQuiz(rows, m)
    ensures m in RowMonths(rows) && row.Month == m ==>
      GroupedQuiz(rows + [row], m) == GroupedQuiz(rows, m).(questions := GroupedQuiz(rows, m).questions + [RowQuestion(row)])
    ensures m !in RowMonths(rows) ==> GroupedQuiz(rows + [row], m) == QuizHeader(row).(questions := [RowQuestion(row)])
  {
    var all := rows + [row];
    assert all[..|all| - 1] == rows;
    RowMonthsSnoc(rows, row);
    if m !in RowMonths(rows) {
      assert QuestionsFor(rows, m) == [];
    }
  }

  /** Appending a month not yet listed keeps the list free of repeats. */
  lemma AppendNewMonth(order: seq<int>, month: int)
    requires Distinct(order) && month !in order
    ensures Distinct(order + [month])
    ensures (set m | m in order + [month]) == (set m | m in order) + {month}
  {
  }

  /** One row read into a map that holds the quizzes of the rows before it. */
  lemma GroupStep(seen: seq<QuizExcelRow>, row: QuizExcelRow, before: map<int, MonthlyQuiz>, after: map<int, MonthlyQuiz>)
    requires before.Keys == RowMonths(seen)
    requires forall m :: m in before ==> before[m] == GroupedQuiz(seen, m)
    requires var quiz := if row.Month in before then before[row.Month] else QuizHeader(row);
      after == before[row.Month := quiz.(questions := quiz.questions + [RowQuestion(row)])]
    ensures after.Keys == RowMonths(seen + [row])
    ensures forall m :: m in after ==> after[m] == GroupedQuiz(seen + [row], m)
  {
    RowMonthsSnoc(seen, row);
    forall m | m in after ensures after[m] == GroupedQuiz(seen + [row], m) {
      GroupedQuizSnoc(seen, row, m);
    }
  }

  /**
   * The `forEach` over the rows: a map from month to its quiz, and the order in
   * which the months were first met (the order of the map's values).
   */
  method GroupRows(rows: seq<QuizExcelRow>) returns (quizMap: map<int, MonthlyQuiz>, order: seq<int>)
    ensures quizMap.Keys == RowMonths(rows)
    ensures Distinct(order) && (set m | m in order) == quizMap.Keys
    ensures forall m :: m in quizMap ==> quizMap[m] == GroupedQuiz(rows, m)
  {
    quizMap, order := map[], [];
    for i := 0 to |rows|
      invariant quizMap.Keys == RowMonths(rows[..i])
      invariant Distinct(order) && (set m | m in order) == quizMap.Keys
      invariant forall m :: m in quizMap ==> quizMap[m] == GroupedQuiz(rows[..i], m)
    {
      ghost var seen := rows[..i];
      var row := rows[i];
      var month := row.Month;
      assert rows[..i + 1] == seen + [row];
      ghost var before := quizMap;
      if month !in quizMap {
        AppendNewMonth(order, month);
        quizMap := quizMap[month := QuizHeader(row)];
        order := order + [month];
      }
      var quiz := quizMap[month];
      quizMap := quizMap[month := quiz.(questions := quiz.questions + [RowQuestion(row)])];
      GroupStep(seen, row, before, quizMap);
    }
    assert rows[..|rows|] == rows;
  }

  /** Inserts `q` after every question whose id is not larger. */
  function InsertById(s: seq<QuizQuestion>, q: QuizQuestion): (r: seq<QuizQuestion>)
    requires SortedById(s)
    ensures SortedById(r)
    ensures multiset(r) == multiset(s) + multiset{q}
  {
    if s == [] then [q]
    else if q.id < s[0].id then [q] + s
    else
      var rest := InsertById(s[1..], q);
      assert s == [s[0]] + s[1..];
      HeadBelowInsert(s, q, rest);
      [s[0]] + rest
  }

  lemma HeadBelowInsert(s: seq<QuizQuestion>, q: QuizQuestion, rest: seq<QuizQuestion>)
    requires |s| > 0 && SortedById(s) && s[0].id <= q.id
    requires SortedById(rest) && multiset(rest) == multiset(s[1..]) + multiset{q}
    ensures SortedById([s[0]] + rest)
  {
    forall k | 0 <= k < |rest| ensures s[0].id <= rest[k].id {
      assert rest[k] in multiset(rest);
      if rest[k] != q {
        assert rest[k] in s[1..];
      }
    }
  }

  /** `questions.sort((a, b) => a.id - b.id)`. */
  method SortQuestionsById(questions: seq<QuizQuestion>) returns (sorted: seq<QuizQuestion>)
    ensures SortedById(sorted)
    ensures multiset(sorted) == multiset(questions)
  {
    sorted := [];
    for i := 0 to |questions|
      invariant SortedById(sorted)
      invariant multiset(sorted) == multiset(questions[..i])
    {
      assert questions[..i + 1] == questions[..i] + [questions[i]];
      sorted := InsertById(sorted, questions[i]);
    }
    assert questions[..|questions|] == questions;
  }

  /** Inserts a quiz of a month not yet present at its place in month order. */
  function InsertByMonth(s: seq<MonthlyQuiz>, q: MonthlyQuiz): (r: seq<MonthlyQuiz>)
    requires MonthsIncreasing(s) && q.month !in QuizMonths(s)
    ensures MonthsIncreasing(r)
    ensures forall x :: x in r <==> x in s || x == q
  {
    if s == [] then [q]
    else if q.month < s[0].month then [q] + s
    else
      assert s[0] in s && s[0].month != q.month;
      assert QuizMonths(s[1..]) <= QuizMonths(s);
      var rest := InsertByMonth(s[1..], q);
      HeadBelowMonthInsert(s, q, rest);
      [s[0]] + rest
  }

  lemma HeadBelowMonthInsert(s: seq<MonthlyQuiz>, q: MonthlyQuiz, rest: seq<MonthlyQuiz>)
    requires |s| > 0 && MonthsIncreasing(s) && s[0].month < q.month
    requires MonthsIncreasing(rest) && forall x :: x in rest <==> x in s[1..] || x == q
    ensures MonthsIncreasing([s[0]] + rest)
    ensures forall x :: x in [s[0]] + rest <==> x in s || x == q
  {
    assert s == [s[0]] + s[1..];
    forall k | 0 <= k < |rest| ensures s[0].month < rest[k].month {
      assert rest[k] in rest;
      if rest[k] != q {
        var j :| 0 <= j < |s[1..]| && s[1..][j] == rest[k];
        assert s[j + 1] == rest[k];
      }
    }
  }

  /** `Array.from(quizMap.values()).sort((a, b) => a.month - b.month)`. */
  method SortByMonth(quizMap: map<int, MonthlyQuiz>, order: seq<int>) returns (quizzes: seq<MonthlyQuiz>)
    requires Distinct(order) && (set m | m in order) == quizMap.Keys
    requires forall m :: m in quizMap ==> quizMap[m].month == m
    ensures MonthsIncreasing(quizzes)
    ensures QuizMonths(quizzes) == quizMap.Keys
    ensures forall i :: 0 <= i < |quizzes| ==> quizzes[i].month in quizMap && quizzes[i] == quizMap[quizzes[i].month]
  {
    quizzes := [];
    for i := 0 to |order|
      invariant MonthsIncreasing(quizzes)
      invariant QuizMonths(quizzes) == set m | m in order[..i]
      invariant forall x :: x in quizzes ==> x.month in quizMap && x == quizMap[x.month]
    {
      assert order[..i + 1] == order[..i] + [order[i]];
      assert order[i] !in order[..i];
      var q := quizMap[order[i]];
      var next := InsertByMonth(quizzes, q);
      assert QuizMonths(next) == QuizMonths(quizzes) + {q.month} by {
        assert forall x :: x in next <==> x in quizzes || x == q;
      }
      quizzes := next;
    }
    assert order[..|order|] == order;
  }

  /** Sorting each month's questions keeps the grouping and completes it. */
  lemma SortedQuestionsGroup(rows: seq<QuizExcelRow>, byMonth: seq<MonthlyQuiz>, quizzes: seq<MonthlyQuiz>)
    requires MonthsIncreasing(byMonth) && QuizMonths(byMonth) == RowMonths(rows)
    requires forall i :: 0 <= i < |byMonth| ==>
      byMonth[i].month in RowMonths(rows) && byMonth[i] == GroupedQuiz(rows, byMonth[i].month)
    requires |quizzes| == |byMonth|
    requires forall k :: 0 <= k < |quizzes| ==> quizzes[k] == byMonth[k].(questions := quizzes[k].questions)
    requires forall k :: 0 <= k < |quizzes| ==>
      SortedById(quizzes[k].questions) && multiset(quizzes[k].questions) == multiset(byMonth[k].questions)
    ensures IsGroupingOf(rows, quizzes)
  {
    assert QuizMonths(quizzes) == QuizMonths(byMonth) by {
      forall m | m in QuizMonths(byMonth) ensures m in QuizMonths(quizzes) {
        var x :| x in byMonth && x.month == m;
        var k :| 0 <= k < |byMonth| && byMonth[k] == x;
        assert quizzes[k].month == m;
      }
      forall m | m in QuizMonths(quizzes) ensures m in QuizMonths(byMonth) {
        var x :| x in quizzes && x.month == m;
        var k :| 0 <= k < |quizzes| && quizzes[k] == x;
        assert byMonth[k].month == m;
      }
    }
  }

  /** Sorts the questions of every quiz by id, keeping everything else. */
  method SortEachQuiz(byMonth: seq<MonthlyQuiz>) returns (quizzes: seq<MonthlyQuiz>)
    ensures |quizzes| == |byMonth|
    ensures forall k :: 0 <= k < |quizzes| ==> quizzes[k] == byMonth[k].(questions := quizzes[k].questions)
    ensures forall k :: 0 <= k < |quizzes| ==>
      SortedById(quizzes[k].questions) && multiset(quizzes[k].questions) == multiset(byMonth[k].questions)
  {
    quizzes := [];
    for i := 0 to |byMonth|
      invariant |quizzes| == i
      invariant forall k :: 0 <= k < i ==> quizzes[k] == byMonth[k].(questions := quizzes[k].questions)
      invariant forall k :: 0 <= k < i ==>
        SortedById(quizzes[k].questions) && multiset(quizzes[k].questions) == multiset(byMonth[k].questions)
    {
      var sorted := SortQuestionsById(byMonth[i].questions);
      quizzes := quizzes + [byMonth[i].(questions := sorted)];
    }
  }

  /** The transformation of the rows into quizzes, without the fetch and the cache. */
  method QuizzesFromRows(rows: seq<QuizExcelRow>) returns (quizzes: seq<MonthlyQuiz>)
    ensures IsGroupingOf(rows, quizzes)
  {
    var quizMap, order := GroupRows(rows);
    assert forall m :: m in quizMap ==> quizMap[m].month == m;
    var byMonth := SortByMonth(quizMap, order);
    assert forall i :: 0 <= i < |byMonth| ==>
      byMonth[i].month in RowMonths(rows) && byMonth[i] == GroupedQuiz(rows, byMonth[i].month);
    quizzes := SortEachQuiz(byMonth);
    SortedQuestionsGroup(rows, byMonth, quizzes);
  }

  /** Total number of questions over all quizzes. */
  function QuestionTotal(quizzes: seq<MonthlyQuiz>): nat {
    if quizzes == [] then 0 else |quizzes[0].questions| + QuestionTotal(quizzes[1..])
  }

  /** Number of the rows' questions for the months of `quizzes`, month by month. */
  function RowsForMonths(rows: seq<QuizExcelRow>, quizzes: seq<MonthlyQuiz>): nat {
    if quizzes == [] then 0 else |QuestionsFor(rows, quizzes[0].month)| + RowsForMonths(rows, quizzes[1..])
  }

  /** How many quizzes are for month `m`. */
  function MonthOccurrences(quizzes: seq<MonthlyQuiz>, m: int): nat {
    if quizzes == [] then 0 else (if quizzes[0].month == m then 1 else 0) + MonthOccurrences(quizzes[1..], m)
  }

  lemma {:induction false} MonthOccursOnce(quizzes: seq<MonthlyQuiz>, m: int)
    requires MonthsIncreasing(quizzes)
    ensures MonthOccurrences(quizzes, m) == if m in QuizMonths(quizzes) then 1 else 0
  {
    if quizzes != [] {
      assert quizzes == [quizzes[0]] + quizzes[1..];
      MonthOccursOnce(quizzes[1..], m);
      assert QuizMonths(quizzes) == {quizzes[0].month} + QuizMonths(quizzes[1..]);
      if quizzes[0].month == m {
        assert m !in QuizMonths(quizzes[1..]) by {
          forall x | x in quizzes[1..] ensures x.month != m {
            var k :| 0 <= k < |quizzes[1..]| && quizzes[1..][k] == x;
            assert quizzes[k + 1] == x;
          }
        }
      }
    }
  }

  lemma {:induction false} RowsForNoRows(quizzes: seq<MonthlyQuiz>)
    ensures RowsForMonths([], quizzes) == 0
  {
    if quizzes != [] {
      RowsForNoRows(quizzes[1..]);
    }
  }

  lemma {:induction false} RowsForSnoc(rows: seq<QuizExcelRow>, row: QuizExcelRow, quizzes: seq<MonthlyQuiz>)
    ensures RowsForMonths(rows + [row], quizzes) == RowsForMonths(rows, quizzes) + MonthOccurrences(quizzes, row.Month)
  {
    if quizzes != [] {
      RowsForSnoc(rows, row, quizzes[1..]);
      var all := rows + [row];
      assert all[..|all| - 1] == rows;
    }
  }

  lemma {:induction false} RowsForAllMonths(rows: seq<QuizExcelRow>, quizzes: seq<MonthlyQuiz>)
    requires MonthsIncreasing(quizzes) && RowMonths(rows) <= QuizMonths(quizzes)
    ensures RowsForMonths(rows, quizzes) == |rows|
  {
    if rows == [] {
      RowsForNoRows(quizzes);
    } else {
      var n := |rows| - 1;
      assert rows == rows[..n] + [rows[n]];
      RowMonthsSnoc(rows[..n], rows[n]);
      RowsForAllMonths(rows[..n], quizzes);
      RowsForSnoc(rows[..n], rows[n], quizzes);
      MonthOccursOnce(quizzes, rows[n].Month);
    }
  }

  lemma {:induction false} TotalMatchesRows(rows: seq<QuizExcelRow>, quizzes: seq<MonthlyQuiz>)
    requires forall i :: 0 <= i < |quizzes| ==> |quizzes[i].questions| == |QuestionsFor(rows, quizzes[i].month)|
    ensures QuestionTotal(quizzes) == RowsForMonths(rows, quizzes)
  {
    if quizzes != [] {
      TotalMatchesRows(rows, quizzes[1..]);
    }
  }

  /** Every row becomes exactly one question: the quizzes hold as many questions as there are rows. */
  lemma EveryRowOnce(rows: seq<QuizExcelRow>, quizzes: seq<MonthlyQuiz>)
    requires IsGroupingOf(rows, quizzes)
    ensures QuestionTotal(quizzes) == |rows|
  {
    forall i | 0 <= i < |quizzes| ensures |quizzes[i].questions| == |QuestionsFor(rows, quizzes[i].month)| {
      assert |multiset(quizzes[i].questions)| == |multiset(QuestionsFor(rows, quizzes[i].month))|;
    }
    TotalMatchesRows(rows, quizzes);
    RowsForAllMonths(rows, quizzes);
  }

  /** Each row's question is in the quiz of the row's month. */
  lemma RowLandsInItsQuiz(rows: seq<QuizExcelRow>, quizzes: seq<MonthlyQuiz>, i: nat)
    requires IsGroupingOf(rows, quizzes) && i < |rows|
    ensures exists k :: (0 <= k < |quizzes| && quizzes[k].month == rows[i].Month
      && RowQuestion(rows[i]) in quizzes[k].questions)
  {
    assert rows[i].Month in RowMonths(rows);
    var x :| x in quizzes && x.month == rows[i].Month;
    var k :| 0 <= k < |quizzes| && quizzes[k] == x;
    RowQuestionListed(rows, i);
    assert RowQuestion(rows[i]) in multiset(quizzes[k].questions);
  }

  /**
   * A loaded quiz invents no question: each is a row of its month, with the four
   * option cells in column order and the row's correct answer.
   */
  lemma QuestionsComeFromRows(rows: seq<QuizExcelRow>, quizzes: seq<MonthlyQuiz>, k: nat, q: QuizQuestion)
    requires IsGroupingOf(rows, quizzes) && k < |quizzes| && q in quizzes[k].questions
    ensures exists i :: (0 <= i < |rows| && rows[i].Month == quizzes[k].month
      && q.id == rows[i].QuestionId && q.correctAnswer == rows[i].CorrectAnswer
      && q.options == [rows[i].Option1, rows[i].Option2, rows[i].Option3, rows[i].Option4])
  {
    assert q in multiset(quizzes[k].questions);
    ListedQuestionFromRow(rows, quizzes[k].month, q);
  }

  /**
   * Looking up a month in loaded quizzes finds a quiz exactly for the months in
   * the rows, and it is the one built from that month's rows.
   */
  lemma LookupInGrouping(rows: seq<QuizExcelRow>, quizzes: seq<MonthlyQuiz>, month: int)
    requires IsGroupingOf(rows, quizzes)
    ensures GetQuizForMonth(quizzes, month).Some? <==> month in RowMonths(rows)
    ensures HasQuizForMonth(quizzes, month) <==> month in RowMonths(rows)
    ensures GetQuizForMonth(quizzes, month).Some? ==>
      var q := GetQuizForMonth(quizzes, month).value;
      && q.title == FirstRowFor(rows, month).value.QuizTitle
      && q.passingScore == FirstRowFor(rows, month).value.PassingScore
      && multiset(q.questions) == multiset(QuestionsFor(rows, month))
  {
    if month in RowMonths(rows) {
      var x :| x in quizzes && x.month == month;
    }
    var r := GetQuizForMonth(quizzes, month);
    if r.Some? {
      var k :| 0 <= k < |quizzes| && quizzes[k] == r.value;
    }
  }

  /** The module-level cache of loaded quizzes. */
  class QuizCache {
    var cachedQuizzes: Option<seq<MonthlyQuiz>>
    /** The rows the cached quizzes were built from. */
    ghost var sourceRows: seq<QuizExcelRow>

    ghost predicate Valid()
      reads this
    {
      cachedQuizzes.Some? ==> IsGroupingOf(sourceRows, cachedQuizzes.value)
    }

    constructor ()
      ensures Valid() && cachedQuizzes == None
    {
      cachedQuizzes := None;
      sourceRows := [];
    }

    /**
     * `loadQuizzesFromExcel`: the cached quizzes when there are any (even none at
     * all); otherwise the fetched sheet's rows (`None` when the fetch fails)
     * grouped into quizzes and cached, or the not-found error.
     */
    method LoadQuizzesFromExcel(filePath: Option<string>, sheet: Option<seq<QuizExcelRow>>) returns (r: Result<seq<MonthlyQuiz>>)
      requires Valid()
      modifies this
      ensures Valid()
      ensures old(cachedQuizzes).Some? ==>
                (r == Success(old(cachedQuizzes).value) && cachedQuizzes == old(cachedQuizzes)
                 && sourceRows == old(sourceRows))
      ensures old(cachedQuizzes).None? && sheet.None? ==>
                (r == Failure(NotFoundMessage(FilePath(filePath))) && cachedQuizzes == None)
      ensures old(cachedQuizzes).None? && sheet.Some? ==>
                (r.Success? && cachedQuizzes == Some(r.value) && sourceRows == sheet.value)
      ensures r.Success? ==> IsGroupingOf(sourceRows, r.value)
    {
      if cachedQuizzes.Some? {
        return Success(cachedQuizzes.value);
      }
      if sheet.None? {
        return Failure(NotFoundMessage(FilePath(filePath)));
      }
      var quizzes := QuizzesFromRows(sheet.value);
      cachedQuizzes := Some(quizzes);
      sourceRows := sheet.value;
      r := Success(quizzes);
    }

    /** `clearQuizzesCache`. */
    method ClearQuizzesCache()
      modifies this
      ensures Valid() && cachedQuizzes == None
    {
      cachedQuizzes := None;
    }

    /** `getQuizForMonthFromExcel`: the loaded quiz for the month, if any; a load error propagates. */
    method GetQuizForMonthFromExcel(month: int, filePath: Option<string>, sheet: Option<seq<QuizExcelRow>>)
      returns (r: Result<Option<MonthlyQuiz>>)
      requires Valid()
      modifies this
      ensures Valid()
      ensures old(cachedQuizzes).Some? ==> cachedQuizzes == old(cachedQuizzes) && sourceRows == old(sourceRows)
      ensures old(cachedQuizzes).None? && sheet.Some? ==> cachedQuizzes.Some? && sourceRows == sheet.value
      ensures old(cachedQuizzes).None? && sheet.None? ==>
                r == Failure(NotFoundMessage(FilePath(filePath))) && cachedQuizzes == None
      ensures r.Failure? <==> old(cachedQuizzes).None? && sheet.None?
      ensures r.Success? ==> cachedQuizzes.Some? && r.value == GetQuizForMonth(cachedQuizzes.value, month)
      ensures r.Success? ==> (r.value.Some? <==> month in RowMonths(sourceRows))
    {
      var loaded := LoadQuizzesFromExcel(filePath, sheet);
      if loaded.Failure? {
        return Failure(loaded.error);
      }
      LookupInGrouping(sourceRows, loaded.value, month);
      r := Success(GetQuizForMonth(loaded.value, month));
    }

    /** `hasQuizForMonthFromExcel`: whether the loaded quizzes include the month; a load error propagates. */
    method HasQuizForMonthFromExcel(month: int, filePath: Option<string>, sheet: Option<seq<QuizExcelRow>>)
      returns (r: Result<bool>)
      requires Valid()
      modifies this
      ensures Valid()
      ensures old(cachedQuizzes).Some? ==> cachedQuizzes == old(cachedQuizzes) && sourceRows == old(sourceRows)
      ensures old(cachedQuizzes).None? && sheet.Some? ==> cachedQuizzes.Some? && sourceRows == sheet.value
      ensures old(cachedQuizzes).None? && sheet.None? ==>
                r == Failure(NotFoundMessage(FilePath(filePath))) && cachedQuizzes == None
      ensures r.Failure? <==> old(cachedQuizzes).None? && sheet.None?
      ensures r.Success? ==> cachedQuizzes.Some? && (r.value <==> month in RowMonths(sourceRows))
    {
      var loaded := LoadQuizzesFromExcel(filePath, sheet);
      if loaded.Failure? {
        return Failure(loaded.error);
      }
      LookupInGrouping(sourceRows, loaded.value, month);
      r := Success(HasQuizForMonth(loaded.value, month));
    }
  }
}
