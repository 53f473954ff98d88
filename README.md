# COA-S.A.F.E learning core in Dafny

COA-S.A.F.E is a children's-rights learning app: one short lesson ("daily
article") per calendar day, a monthly quiz, and a progress record with a
day streak, a level and rewards. This project models the logic behind it and
proves properties of that model:

- **Progress engine** (`UserProgress`). The record of completed lesson dates,
  earned reward dates, last active date, streak and level is a class
  (`ProgressHook`) whose methods follow the hook's operations. Each method is
  proved equal to a pure function on a `Progress` value (`OpenApp`,
  `CompleteLesson`). The lemmas about those functions state the streak rules,
  completion without duplicates, reward earning, the level, and an invariant
  that every operation keeps. Dates are Gregorian `(year, month, day)` values
  (`Dates`). The hook's `YYYY-MM-DD` strings are derived from them
  (`DateKeys`), and the key is shown injective, so storing the dates is
  equivalent to storing the strings.
- **Content tables** (`DailyArticles`, `Quizzes`). These hold the built-in
  article and quiz tables with their numeric and flag fields, and the
  first-match lookups over them.
- **Quiz session** (`QuizPage`). The quiz page state is a class with the
  page's handlers. The correct answers are counted by a loop proved against a
  recursive count, and the percentage is rounded as `Math.round` does.
- **Quiz overview** (`QuizzesPage`). This covers the coming-soon, locked and
  available status of each month, the click guard, and the count of
  available quizzes.
- **Spreadsheet loaders** (`QuizExcelReader`, `ExcelReader`). These cover
  grouping quiz rows into monthly quizzes, sorting them, mapping article
  rows, and the module-level caches. The fetched sheet is an input: its rows,
  or `None` when the fetch fails.
- **Lessons overview** (`LessonsPage`). This covers grouping articles by
  month, the month selector, the completed count of a month, and the lesson
  route key, read back exactly as the lesson page parses it.

JavaScript specifics are written out:

- the `Date` constructor maps years 0..99 to 1900..1999 and rolls month
  indices into neighbouring years;
- `year || currentYear` treats 0 as absent;
- the 80% threshold is `5 * days >= 4 * daysInMonth`;
- `Math.round` is integer rounding, halves upwards;
- a score over zero questions is NaN, modelled as `None`;
- assigning past the end of an array leaves holes;
- `trim` removes the ECMAScript white-space and line-terminator characters.

When the app is opened with a last active date after today (the device clock
moved backwards), the day difference is negative and no branch of
`updateStreakOnAppOpen` applies, so the record stays unchanged. The model
follows the code here. A "streak broken" reading of that case would reset the
streak to 1, and `UserProgress.OpenSameDayOrEarlier` states that this does not
happen.

## Model

| member | source | states |
|---|---|---|
| UserProgress.ProgressHook.constructor | src/hooks/useUserProgress.ts:22-28 | the initial record has no lessons, no last active date, streak 0, level 1 and no rewards, and satisfies the progress invariant |
| UserProgress.DefaultSatisfiesInvariant | src/hooks/useUserProgress.ts:22-28 | the initial record satisfies the progress invariant |
| UserProgress.ProgressHook.UpdateStreakOnAppOpen | src/hooks/useUserProgress.ts:47-90 | the new record is `OpenApp` of the old record, today and the persisted snapshot, and a record satisfying the progress invariant keeps it |
| UserProgress.OpenFirstTime | src/hooks/useUserProgress.ts:74-88 | with no persisted record, or one without a last active date, the streak becomes 1 and the last active date today |
| UserProgress.OpenNextDay | src/hooks/useUserProgress.ts:56-64 | opening on the day after the last active date adds 1 to the streak and records today; on any other day the result is either unchanged or a streak restarted at 1 |
| Dates.ConsecutiveIffNextDay | src/hooks/useUserProgress.ts:56-58 | a day difference of exactly 1 holds iff today is the calendar day after the last active date |
| UserProgress.OpenAfterGap | src/hooks/useUserProgress.ts:65-72 | a day difference above 1 resets the streak to 1 and records today |
| UserProgress.OpenSameDayOrEarlier | src/hooks/useUserProgress.ts:56-73 | a day difference of 0 or below changes nothing |
| UserProgress.OpenTwiceSameDay | src/hooks/useUserProgress.ts:56-73 | a second open on the same day, after the first was persisted, changes nothing |
| UserProgress.OpenKeepsCompletions | src/hooks/useUserProgress.ts:60-88 | opening the app never changes the completed lessons, rewards or level |
| UserProgress.OpenKeepsInvariant | src/hooks/useUserProgress.ts:47-90 | opening the app keeps the progress invariant, whatever the persisted snapshot holds |
| UserProgress.ExampleConsecutiveDay | src/hooks/useUserProgress.ts:58-64 | last active 5 January with streak 3, opened 6 January: streak 4 |
| UserProgress.ExampleBrokenStreak | src/hooks/useUserProgress.ts:65-72 | last active 5 January with streak 5, opened 8 January: streak 1 |
| UserProgress.ProgressHook.MarkLessonCompleted | src/hooks/useUserProgress.ts:92-121 | the new record is `CompleteLesson` of the old record and the date, and a record satisfying the progress invariant keeps it |
| UserProgress.CompleteRecord | src/hooks/useUserProgress.ts:94-120 | appending the date if absent, adding it to the rewards when its article is flagged and deriving the level yields `CompleteLesson` of the record and the date |
| UserProgress.AppendIfAbsent | src/hooks/useUserProgress.ts:97-100 | the list grows by the date only when it is absent, keeps its prefix, holds exactly the old elements and the date, and stays free of duplicates |
| UserProgress.CompleteAddsOnce | src/hooks/useUserProgress.ts:97-100 | completion puts the date in the completed lessons once, keeps the earlier entries in order, and leaves the streak and last active date alone |
| UserProgress.EarnsReward | src/hooks/useUserProgress.ts:94-106 | the looked-up article is flagged as a reward day iff the date is 30 January |
| UserProgress.CompleteRewardRule | src/hooks/useUserProgress.ts:105-108 | the rewards grow iff the date is a flagged reward day not already rewarded |
| UserProgress.CompleteIdempotent | src/hooks/useUserProgress.ts:96-120 | completing the same date twice equals completing it once |
| UserProgress.CompleteLevel | src/hooks/useUserProgress.ts:110-112 | after completion the level is `max(1, k + 1)` for the k months present in both lists, and it never decreases |
| UserProgress.LevelBounds | src/hooks/useUserProgress.ts:111-112 | the level is at least 1 and at most one more than the number of months with lessons |
| UserProgress.LevelMonotone | src/hooks/useUserProgress.ts:123-147 | growing both lists never lowers the level |
| UserProgress.FirstCompletionLevel | src/hooks/useUserProgress.ts:105-112 | from the initial record, completing 30 January gives level 2 and any other date level 1 |
| UserProgress.CompleteKeepsInvariant | src/hooks/useUserProgress.ts:96-120 | completion keeps the invariant: no duplicates, rewards are completed 30 January dates, streak not negative, level derived from the lists |
| UserProgress.CollectMonths | src/hooks/useUserProgress.ts:128-136 | the set built one date at a time is exactly the set of months of the dates |
| UserProgress.CountShared | src/hooks/useUserProgress.ts:139-144 | visiting the lesson months one by one counts exactly those that also have a reward |
| UserProgress.GetCompletedMonths | src/hooks/useUserProgress.ts:123-147 | the loops over both lists count exactly the months present in both |
| DateKeys.MonthKeyInjective | src/hooks/useUserProgress.ts:129-135 | distinct months give distinct `YYYY-MM` keys, so counting keys counts months |
| UserProgress.ProgressHook.IsLessonCompleted | src/hooks/useUserProgress.ts:149-152 | true iff the date's `YYYY-MM-DD` key is among the keys of the completed lessons |
| UserProgress.KeyMembership | src/hooks/useUserProgress.ts:149-152 | a date's key is among the stored keys iff the date is among the stored dates |
| DateKeys.StorageKeyInjective | src/hooks/useUserProgress.ts:93-98 | distinct dates have distinct `YYYY-MM-DD` keys |
| DateKeys.StorageKeyRoundTrip | src/hooks/useUserProgress.ts:93 | a stored key splits back into the date's year, month and day |
| UserProgress.ProgressHook.GetStats | src/hooks/useUserProgress.ts:154-160 | the completed count is the length of the completed list, streak and level are the record's; when the record satisfies the invariant the count is also the number of distinct completed dates |
| UserProgress.StatsCountDistinctLessons | src/hooks/useUserProgress.ts:154-160 | under the invariant the completed count is the number of distinct completed dates |
| UserProgress.ProgressHook.ResetProgress | src/hooks/useUserProgress.ts:162-170 | after a reset the record is the initial record, which satisfies the progress invariant |
| UserProgress.ResetStats | src/hooks/useUserProgress.ts:162-170 | the statistics of the reset record are 0 completed, streak 0, level 1 |
| UserProgress.ProgressHook.IsMonthCompleted | src/hooks/useUserProgress.ts:172-186 | the day loop's result equals `MonthCompleted`: at least 80% of the month's days are completed |
| UserProgress.MonthThreshold | src/hooks/useUserProgress.ts:184-185 | the month is completed iff 5 times the completed days reaches 4 times the days in the month; a 31-day month needs 25 days |
| Dates.DaysInMonth | src/hooks/useUserProgress.ts:174 | a month has 28 to 31 days: 31 for the long months, 30 for the short ones, 29 for February of a leap year |
| Dates.JsYearMonth | src/hooks/useUserProgress.ts:178 | the month the `Date` constructor lands in is in 1..12, and an in-range month is kept with the year mapped as `Date` maps it |
| Dates.DayOrdinalInjective | src/hooks/useUserProgress.ts:56 | two dates with a day difference of 0 are the same date |
| Dates.NextDay | src/hooks/useUserProgress.ts:58 | the day after a valid date is a valid date |
| DailyArticles.DailyArticleTable | src/data/dailyArticles.ts:18-275 | 31 entries, 1 to 30 January and 1 February, with valid challenge types; only 30 January is flagged as a reward day, and it carries a reward |
| DailyArticles.FindArticle | src/data/dailyArticles.ts:281 | absent iff no article matches the day and month; a found article matches and is the first match |
| DailyArticles.FindArticleIsFirst | src/data/dailyArticles.ts:281 | when the k-th article is the first match, the lookup returns it |
| DailyArticles.GetArticleForDate | src/data/dailyArticles.ts:278-282 | the found article has the date's day and month, whatever the year; one is found iff the date is 1 to 30 January or 1 February |
| DailyArticles.FlaggedArticleIsJanuary30 | src/data/dailyArticles.ts:285-287 | the looked-up article is flagged as a reward day iff the date is 30 January, which is then also a 30th as `isRewardDay` requires |
| DailyArticles.IsRewardDay | src/data/dailyArticles.ts:285-287 | a date is a reward day iff it is the 30th, of any month |
| Quizzes.MonthlyQuizTable | src/data/quizzes.ts:17-298 | four quizzes for months 1 to 4, five questions each with ids 1 to 5, pass mark 70, every correct answer an index into its options |
| Quizzes.GetQuizForMonth | src/data/quizzes.ts:301-303 | absent iff no quiz has the month; a found quiz has the month and is the first such |
| Quizzes.HasQuizForMonth | src/data/quizzes.ts:306-308 | a month has a quiz iff the first-match lookup finds one |
| Quizzes.TableQuizMonths | src/data/quizzes.ts:17-308 | exactly months 1 to 4 have a built-in quiz, and the lookup returns that month's |
| QuizPage.QuizSession.constructor | src/pages/Quiz.tsx:10-14 | a session starts on question 0 with no answers, no results and score 0 |
| QuizPage.SetAnswer | src/pages/Quiz.tsx:25-27 | only the given position takes the answer; other positions keep theirs, and positions added by the growth are holes |
| QuizPage.QuizSession.HandleAnswerSelect | src/pages/Quiz.tsx:24-28 | the answers are updated at the current question only; index, results and score are kept |
| QuizPage.QuizSession.HandleNext | src/pages/Quiz.tsx:30-37 | moves to the next question while there is one, otherwise computes the score and shows the results; the index stays on a question |
| QuizPage.QuizSession.HandlePrevious | src/pages/Quiz.tsx:39-43 | steps back only from a question after the first |
| QuizPage.CorrectCount | src/pages/Quiz.tsx:48-53 | the count is at most the number of questions, and reaches it iff every question was answered correctly |
| QuizPage.CountCorrectAnswers | src/pages/Quiz.tsx:48-53 | the loop counts the questions whose selected answer is the correct one |
| QuizPage.RoundedPercent | src/pages/Quiz.tsx:55 | NaN iff there are no questions; otherwise the integer nearest to `100 * correct / total`, halves upwards, and within 0..100 |
| QuizPage.QuizSession.CalculateScore | src/pages/Quiz.tsx:45-58 | without a quiz nothing changes; otherwise the score is the rounded percentage of correct answers and the results are shown |
| QuizPage.QuizSession.ResetQuiz | src/pages/Quiz.tsx:60-65 | back to question 0 with no answers, no results and score 0 |
| QuizPage.TableQuizPassMark | src/pages/Quiz.tsx:67 | a built-in quiz (pass mark 70, five questions) is passed iff at least four answers are correct |
| QuizPage.Passed | src/pages/Quiz.tsx:67 | a NaN score never passes; otherwise the score must reach the quiz's pass mark, or 70 when there is no quiz or its pass mark is 0 |
| QuizPage.QuizSession.IsPassed | src/pages/Quiz.tsx:67 | the session passes iff its score passes its quiz's mark; an unscored session never passes |
| QuizzesPage.GetMonthStatus | src/pages/Quizzes.tsx:19-32 | coming soon iff the month has no quiz; available iff it has one and is completed; the quiz can be taken iff it is available |
| QuizzesPage.HandleQuizClick | src/pages/Quizzes.tsx:34-39 | a click opens the quiz page iff the quiz can be taken, and that page then finds its quiz |
| QuizzesPage.AvailableQuizzes | src/pages/Quizzes.tsx:67-69 | at most the number of built-in quizzes |
| QuizzesPage.CompletedQuizCount | src/pages/Quizzes.tsx:67-69 | the count of quizzes with a completed month is at most the number of quizzes counted |
| QuizzesPage.AvailableQuizzesCountsAvailableMonths | src/pages/Quizzes.tsx:67-69 | the available count equals the number of the twelve months shown as available |
| QuizExcelReader.FirstRowFor | src/utils/quizExcelReader.ts:53-61 | a month has a first row iff it occurs in the rows, and it is the earliest row for that month |
| QuizExcelReader.QuestionsFor | src/utils/quizExcelReader.ts:63-74 | a month's question list is empty iff the month does not occur in the rows |
| QuizExcelReader.GroupedQuizSnoc | src/utils/quizExcelReader.ts:53-75 | a new month opens a quiz headed by its row; a later row of a known month only appends its question |
| QuizExcelReader.GroupRows | src/utils/quizExcelReader.ts:47-75 | the map's keys are the months in the rows, each mapped to its first row's header and its questions in row order; the key order lists each month once |
| QuizExcelReader.InsertById | src/utils/quizExcelReader.ts:82 | inserting into a list sorted by id keeps it sorted, adding exactly the one question |
| QuizExcelReader.SortQuestionsById | src/utils/quizExcelReader.ts:81-83 | the questions come out sorted by id and are a permutation of the input |
| QuizExcelReader.InsertByMonth | src/utils/quizExcelReader.ts:78 | inserting a quiz of a new month keeps the months strictly increasing |
| QuizExcelReader.SortByMonth | src/utils/quizExcelReader.ts:78 | the map's quizzes come out in strictly increasing month order, each month once |
| QuizExcelReader.SortEachQuiz | src/utils/quizExcelReader.ts:80-83 | every quiz keeps its month and header, and its questions become a sorted-by-id permutation of what they were |
| QuizExcelReader.QuizzesFromRows | src/utils/quizExcelReader.ts:47-83 | the result is a grouping of the rows: months increasing and those of the rows, headers from each month's first row, questions exactly that month's rows sorted by id |
| QuizExcelReader.EveryRowOnce | src/utils/quizExcelReader.ts:49-75 | the quizzes hold as many questions as there are rows |
| QuizExcelReader.RowLandsInItsQuiz | src/utils/quizExcelReader.ts:49-75 | each row's question is in the quiz of the row's month |
| QuizExcelReader.QuestionsComeFromRows | src/utils/quizExcelReader.ts:66-72 | every question comes from a row of its month, with the four option cells in order and the row's id and correct answer |
| QuizExcelReader.LookupInGrouping | src/utils/quizExcelReader.ts:103-112 | a month is found iff it occurs in the rows, and the quiz found carries that month's first-row header and rows |
| QuizExcelReader.QuizCache.constructor | src/utils/quizExcelReader.ts:20 | the cache starts empty |
| QuizExcelReader.QuizCache.LoadQuizzesFromExcel | src/utils/quizExcelReader.ts:23-94 | a set cache is returned unchanged; otherwise a failed fetch throws the not-found error naming the path (`/quizzes.xlsx` when omitted) and a fetched sheet is grouped, cached and returned |
| QuizExcelReader.QuizCache.ClearQuizzesCache | src/utils/quizExcelReader.ts:97-100 | the cache is empty afterwards |
| QuizExcelReader.QuizCache.GetQuizForMonthFromExcel | src/utils/quizExcelReader.ts:103-106 | the cache and its source rows stay as they were when set, otherwise become the fetched sheet; a load error propagates; otherwise the first loaded quiz for the month, found iff the month occurs in those rows |
| QuizExcelReader.QuizCache.HasQuizForMonthFromExcel | src/utils/quizExcelReader.ts:109-112 | the cache and its source rows stay as they were when set, otherwise become the fetched sheet; a load error propagates; otherwise true iff the month occurs in those rows |
| ExcelReader.TrimStart | src/utils/excelReader.ts:55 | trimming the front drops only white space and stops at visible text |
| ExcelReader.TrimEnd | src/utils/excelReader.ts:55 | trimming the back drops only white space and stops at visible text |
| ExcelReader.TrimNonEmpty | src/utils/excelReader.ts:55-59 | a trimmed string is non-empty iff the string has a character that is not white space |
| ExcelReader.KeptIfVisible | src/utils/excelReader.ts:55-61 | a content cell is kept, untrimmed, iff it holds a non-white-space character |
| ExcelReader.OrEmpty | src/utils/excelReader.ts:68-69 | a truthy cell gives its text, anything else the empty string |
| ExcelReader.RowToArticle | src/utils/excelReader.ts:45-75 | required cells copied; content and link kept only when visible; reward day set iff the cell reads exactly `TRUE`; a reward only on a reward day with a truthy title or message, missing parts empty |
| ExcelReader.FlaggedOnlyByTrueText | src/utils/excelReader.ts:63-64 | a loaded article counts as a reward day iff its cell reads `TRUE`, and every reward sits on such a day |
| ExcelReader.ArticlesFromRows | src/utils/excelReader.ts:45-75 | one article per row, in row order |
| ExcelReader.FindInLoaded | src/utils/excelReader.ts:96-101 | the lookup finds nothing iff no row has the day and month, and otherwise the article of the first such row |
| ExcelReader.ArticleCache.constructor | src/utils/excelReader.ts:18 | the cache starts empty |
| ExcelReader.ArticleCache.LoadArticlesFromExcel | src/utils/excelReader.ts:21-87 | a set cache is returned unchanged; otherwise a failed fetch throws the not-found error naming the path (`/dailyArticles.xlsx` when omitted) and a fetched sheet is mapped, cached and returned |
| ExcelReader.ArticleCache.ClearArticlesCache | src/utils/excelReader.ts:90-93 | the cache is empty afterwards |
| ExcelReader.ArticleCache.GetArticleForDateFromExcel | src/utils/excelReader.ts:96-101 | the cache and its source rows stay as they were when set, otherwise become the fetched sheet's articles and rows; a load error propagates; otherwise the first loaded article for the date's day and month, absent iff no row has them |
| LessonsPage.ArticlesInMonth | src/pages/Lessons.tsx:44-50 | a month's bucket holds exactly the articles of that month, and is empty for a month without articles |
| LessonsPage.BucketsPartition | src/pages/Lessons.tsx:44-50 | every article is in the bucket of its month and in no other |
| LessonsPage.GroupByMonth | src/pages/Lessons.tsx:44-50 | the `reduce` builds exactly the month buckets of the articles |
| LessonsPage.ReduceIsBuckets | src/pages/Lessons.tsx:44-50 | pushing the articles one at a time onto their month's bucket yields, for every month with articles, exactly that month's articles in order |
| LessonsPage.OfferedMonthsExact | src/pages/Lessons.tsx:130-134 | the selector offers exactly the months in range with a non-empty bucket, in increasing order |
| LessonsPage.OfferedMonths | src/pages/Lessons.tsx:130-134 | at most one button per month of the range |
| LessonsPage.TableOffersJanuaryAndFebruary | src/pages/Lessons.tsx:130-134 | with the built-in articles the selector offers January and February only |
| LessonsPage.ArticleDate | src/pages/Lessons.tsx:95 | the date built for an article is valid and, for a month in 1..12, is that day and month in the current year as `Date` maps it |
| LessonsPage.CompletedCount | src/pages/Lessons.tsx:92-97 | at most the number of articles; equal to it iff all their dates are completed, 0 iff none is |
| LessonsPage.CompletedInMonth | src/pages/Lessons.tsx:92-97 | the selected month's completed count is at most the number of its articles |
| DateKeys.LessonKeyRoundTrip | src/pages/Lessons.tsx:84-88 | splitting the lesson key on `-` and reading the numbers gives back the year, month and day |
| DateKeys.ParseLessonKey | src/pages/Lesson.tsx:29 | a parsed key has at least three parts |
| DateKeys.LessonKeyIsStorageKey | src/pages/Lesson.tsx:39-41 | for a four-digit year the lesson key is the stored `YYYY-MM-DD` key |
| LessonsPage.OpenedLessonIsCounted | src/pages/Lessons.tsx:83-97 | opening a built-in article's lesson parses back to its year, month and day, and the lesson page marks the same date that the completed count looks for |
| LessonsPage.LessonRoute | src/pages/Lessons.tsx:83-90 | the route key built from the current year and the article's month and day parses back to exactly that date |

## Left out

- The progress record is loaded from and saved to browser storage as JSON. The model takes the last persisted snapshot as an input to the streak update instead. A malformed stored record makes `JSON.parse` throw, and that error is not modelled.
- React scheduling is not modelled: effect order, batched state updaters, and the mount-time interplay of loading and the streak update. Each handler is one atomic method on the class.
- `QuizPage.QuizSession.constructor`: the quiz page first renders with no quiz and then sets the one found for the route's month. The session is created with that quiz, and a later change of the route's month is not modelled.
- `fetch`, `XLSX.read` and `sheet_to_json` are not modelled. A fetched sheet is an input: its rows, or `None` when the response is not OK. Errors thrown inside the spreadsheet library and the `console.error` log are not modelled.
- The `lastModified` timestamps of both loaders are not modelled. They are written and cleared but never read.
- Time zones and dayjs parsing are not modelled. Dates are calendar dates, and the app's "today" is an input.
- `QuizPage.RoundedPercent`: it rounds the exact ratio. The source computes `(correct / total) * 100` in floating point, which can differ at exact halves.
- `UserProgress.MonthThreshold`: it compares integers exactly. The source divides in floating point and compares with 0.8.
- Article and quiz prose (titles, descriptions, contents, links, options, explanations) is left empty in the built-in tables. Only the numeric and flag fields and the challenge types are kept.
- `DailyArticles.DailyArticleTable`: `challengeType` is a string, because the spreadsheet loader casts the cell without checking it. Membership in the three challenge types is proved for the built-in table only.
- `ExcelReader.RowToArticle`: the reward-day cell is a string, as the row type declares. A spreadsheet boolean cell, which the library returns as `true`, is outside the model.
- `LessonsPage.ArticleDate`: only days that exist in their month are modelled. A day that would roll into the next month does not occur in the built-in articles.
- `DateKeys.ParseLessonKey`: only digit strings read as numbers. Signs, spaces, decimal points and exponents, which `Number` also accepts, read as NaN.
- `QuizExcelReader.SortQuestionsById`: the contract promises ordering by id and a permutation, not stability. Questions with equal ids are kept in row order, as by the stable `Array.prototype.sort`, but this is not stated. `IsGroupingOf` likewise leaves their relative order open.
- The lessons page's polling and timeout loader is not modelled. Icons, colours and the other display-only pages are not modelled either.
