/**
 * The progress engine: one record of completed-lesson dates, earned-reward
 * dates, the last-active date, the streak and the level, and the rules that
 * change or read it (app open, lesson completion, level derivation, month
 * completion, statistics, reset).
 *
 * Dates are held as `Date` values; the record the app persists holds their
 * `YYYY-MM-DD` keys, and `DateKeys.StorageKeyInjective` shows that comparing
 * those keys is comparing the dates.
 */
module UserProgress {
  import opened Wrappers
  import opened Dates
  import opened DateKeys
  import opened DailyArticles

  /** A date that names a real calendar day, as every JavaScript `Date` does. */
  type CalendarDate = d: Date | ValidDate(d) witness Date(2000, 1, 1)

  /** The persisted progress record. */
  datatype Progress = Progress(
    completedLessons: seq<Date>,
    lastActiveDate: Option<CalendarDate>,
    currentStreak: int,
    currentLevel: int,
    earnedRewards: seq<Date>)

  datatype UserStats = UserStats(completed: nat, streak: int, level: int)

  /** The record a first run starts from and a reset restores. */
  function DefaultProgress(): Progress {
    Progress([], None, 0, 1, [])
  }

  predicate NoDuplicates(s: seq<Date>) {
    forall i, j :: 0 <= i < j < |s| ==> s[i] != s[j]
  }

  // ------------------------------------------------------------ app open

  /**
   * The record after the app is opened on `today`. The branch is chosen from the
   * last persisted snapshot `saved` (`None` when nothing was stored); the change
   * is applied to the in-memory record `p`.
   */
  function OpenApp(p: Progress, today: CalendarDate, saved: Option<Progress>): Progress {
    if saved.None? || saved.value.lastActiveDate.None? then
      p.(currentStreak := 1, lastActiveDate := Some(today))
    else
      var diff := DayDiff(today, saved.value.lastActiveDate.value);
      if diff == 1 then p.(currentStreak := p.currentStreak + 1, lastActiveDate := Some(today))
      else if diff > 1 then p.(currentStreak := 1, lastActiveDate := Some(today))
      else p
  }

  /** With no stored record, or one without a last-active date, the streak starts at 1 today. */
  lemma OpenFirstTime(p: Progress, today: CalendarDate, saved: Option<Progress>)
    requires saved.None? || saved.value.lastActiveDate.None?
    ensures OpenApp(p, today, saved) == p.(currentStreak := 1, lastActiveDate := Some(today))
  {
  }

  /**
   * Opening on the calendar day after the stored last-active date extends the
   * streak by one; on any other day the streak is restarted at 1 or left alone.
   */
  lemma {:induction false} OpenNextDay(p: Progress, today: CalendarDate, last: CalendarDate, saved: Progress)
    requires saved.lastActiveDate == Some(last)
    ensures today == NextDay(last) ==>
      OpenApp(p, today, Some(saved)) == p.(currentStreak := p.currentStreak + 1, lastActiveDate := Some(today))
    ensures today != NextDay(last) ==>
      OpenApp(p, today, Some(saved)) in {p, p.(currentStreak := 1, lastActiveDate := Some(today))}
  {
    ConsecutiveIffNextDay(last, today);
    NextDayOrdinal(last);
  }

  /** Opening two or more days after the stored last-active date restarts the streak at 1. */
  lemma {:induction false} OpenAfterGap(p: Progress, today: CalendarDate, last: CalendarDate, saved: Progress)
    requires saved.lastActiveDate == Some(last)
    requires DateLe(NextDay(last), today) && today != NextDay(last)
    ensures OpenApp(p, today, Some(saved)) == p.(currentStreak := 1, lastActiveDate := Some(today))
  {
    NextDayOrdinal(last);
    DayOrdinalStrictlyIncreasing(NextDay(last), today);
  }

  /**
   * Opening on the stored last-active date, or on an earlier date (clock moved
   * back), leaves the record as it is.
   */
  lemma {:induction false} OpenSameDayOrEarlier(p: Progress, today: CalendarDate, last: CalendarDate, saved: Progress)
    requires saved.lastActiveDate == Some(last)
    requires DateLe(today, last)
    ensures OpenApp(p, today, Some(saved)) == p
  {
    if today != last {
      DayOrdinalStrictlyIncreasing(today, last);
    }
  }

  /**
   * A second open on the same day, after the first one was persisted, changes
   * nothing.
   */
  lemma {:induction false} OpenTwiceSameDay(p: Progress, today: CalendarDate)
    ensures var q := OpenApp(p, today, Some(p)); OpenApp(q, today, Some(q)) == q
  {
    var q := OpenApp(p, today, Some(p));
    if q.lastActiveDate == Some(today) {
      OpenSameDayOrEarlier(q, today, today, q);
    }
  }

  /** Opening the app never touches the completion lists or the level. */
  lemma OpenKeepsCompletions(p: Progress, today: CalendarDate, saved: Option<Progress>)
    ensures var q := OpenApp(p, today, saved);
      q.completedLessons == p.completedLessons && q.earnedRewards == p.earnedRewards
      && q.currentLevel == p.currentLevel
  {
  }

  /** 5 January with a streak of 3, opened on 6 January, gives a streak of 4. */
  lemma ExampleConsecutiveDay()
    ensures var p := Progress([], Some(Date(2024, 1, 5)), 3, 1, []);
      OpenApp(p, Date(2024, 1, 6), Some(p)) == p.(currentStreak := 4, lastActiveDate := Some(Date(2024, 1, 6)))
  {
  }

  /** 5 January with a streak of 5, opened on 8 January, gives a streak of 1. */
  lemma ExampleBrokenStreak()
    ensures var p := Progress([], Some(Date(2024, 1, 5)), 5, 1, []);
      OpenApp(p, Date(2024, 1, 8), Some(p)).currentStreak == 1
  {
  }

  // ------------------------------------------------------- level derivation

  /** The `YYYY-MM` bucket of a date (see `DateKeys.MonthKeyInjective`). */
  function MonthOf(d: Date): (nat, nat) {
    (d.year, d.month)
  }

  /** The months a list of dates touches. */
  function MonthsOf(s: seq<Date>): set<(nat, nat)> {
    set d | d in s :: MonthOf(d)
  }

  /** Number of months with at least one completed lesson and at least one earned reward. */
  function CompletedMonthCount(lessons: seq<Date>, rewards: seq<Date>): nat {
    |MonthsOf(lessons) * MonthsOf(rewards)|
  }

  /** `Math.max(1, completedMonths + 1)`. */
  function LevelFor(lessons: seq<Date>, rewards: seq<Date>): int {
    var k := CompletedMonthCount(lessons, rewards);
    if 1 > k + 1 then 1 else k + 1
  }

  lemma MonthsOfAppend(s: seq<Date>, d: Date)
    ensures MonthsOf(s + [d]) == MonthsOf(s) + {MonthOf(d)}
  {
    assert forall e :: e in s + [d] <==> e in s || e == d;
  }

  lemma SubsetCardinality<T>(a: set<T>, b: set<T>)
    requires a <= b
    ensures |a| <= |b|
  {
    assert b == a + (b - a);
  }

  /** The level is at least 1 and one more than the number of completed months. */
  lemma LevelBounds(lessons: seq<Date>, rewards: seq<Date>)
    ensures LevelFor(lessons, rewards) == CompletedMonthCount(lessons, rewards) + 1 >= 1
    ensures CompletedMonthCount(lessons, rewards) <= |MonthsOf(lessons)|
  {
    SubsetCardinality(MonthsOf(lessons) * MonthsOf(rewards), MonthsOf(lessons));
  }

  /** Adding dates to either list never lowers the level. */
  lemma {:induction false} LevelMonotone(l1: seq<Date>, r1: seq<Date>, l2: seq<Date>, r2: seq<Date>)
    requires forall d :: d in l1 ==> d in l2
    requires forall d :: d in r1 ==> d in r2
    ensures LevelFor(l1, r1) <= LevelFor(l2, r2)
  {
    assert MonthsOf(l1) <= MonthsOf(l2);
    assert MonthsOf(r1) <= MonthsOf(r2);
    SubsetCardinality(MonthsOf(l1) * MonthsOf(r1), MonthsOf(l2) * MonthsOf(r2));
  }

  // ------------------------------------------------------ lesson completion

  /** `if (!list.includes(d)) list.push(d)` on a copy of the list. */
  function AppendIfAbsent(s: seq<Date>, d: Date): (r: seq<Date>)
    ensures |r| == |s| + (if d in s then 0 else 1)
    ensures r[..|s|] == s && d in r
    ensures forall e :: e in r <==> e in s || e == d
    ensures NoDuplicates(s) ==> NoDuplicates(r)
  {
    if d in s then s else s + [d]
  }

  /**
   * The record after the lesson of `date` is marked completed: the date joins
   * the completed list if absent, joins the reward list if the table flags its
   * article as a reward day and it is absent there, and the level is recomputed.
   */
  function CompleteLesson(p: Progress, date: CalendarDate): Progress {
    var lessons := AppendIfAbsent(p.completedLessons, date);
    var rewards := if EarnsReward(date) then AppendIfAbsent(p.earnedRewards, date) else p.earnedRewards;
    p.(completedLessons := lessons, earnedRewards := rewards, currentLevel := LevelFor(lessons, rewards))
  }

  /**
   * `article?.isRewardDay` for the date's table article: with the built-in table,
   * exactly the 30th of January.
   */
  function EarnsReward(date: Date): (b: bool)
    ensures b <==> date.month == 1 && date.day == 30
  {
    FlaggedArticleIsJanuary30(date);
    FlaggedRewardDay(GetArticleForDate(date))
  }

  /**
   * Completion appends the date once: earlier entries keep their order, the
   * date is then present, the list grows by one exactly when it was absent,
   * a list without duplicates stays without duplicates, and the streak and the
   * last-active date are left alone.
   */
  lemma CompleteAddsOnce(p: Progress, date: CalendarDate)
    ensures var q := CompleteLesson(p, date);
      q.completedLessons[..|p.completedLessons|] == p.completedLessons
      && date in q.completedLessons
      && |q.completedLessons| == |p.completedLessons| + (if date in p.completedLessons then 0 else 1)
      && (NoDuplicates(p.completedLessons) ==> NoDuplicates(q.completedLessons))
      && q.currentStreak == p.currentStreak && q.lastActiveDate == p.lastActiveDate
  {
    assert CompleteLesson(p, date).completedLessons == AppendIfAbsent(p.completedLessons, date);
  }

  /**
   * A reward date is added exactly when the date's article is flagged as a reward
   * day (only 30 January in the table) and the date was not yet rewarded; the
   * streak and the last-active date are never changed by completion.
   */
  lemma {:induction false} CompleteRewardRule(p: Progress, date: CalendarDate)
    ensures var q := CompleteLesson(p, date);
      q.earnedRewards[..|p.earnedRewards|] == p.earnedRewards
      && (|q.earnedRewards| > |p.earnedRewards| <==>
          date.month == 1 && date.day == 30 && date !in p.earnedRewards)
      && q.currentStreak == p.currentStreak && q.lastActiveDate == p.lastActiveDate
  {
  }

  /** Completing the same date twice gives the same record as completing it once. */
  lemma CompleteIdempotent(p: Progress, date: CalendarDate)
    ensures CompleteLesson(CompleteLesson(p, date), date) == CompleteLesson(p, date)
  {
  }

  /** The level after completion is one more than the completed months, and never below the level before. */
  lemma {:induction false} CompleteLevel(p: Progress, date: CalendarDate)
    ensures var q := CompleteLesson(p, date);
      q.currentLevel == CompletedMonthCount(q.completedLessons, q.earnedRewards) + 1
      && q.currentLevel >= LevelFor(p.completedLessons, p.earnedRewards)
  {
    var q := CompleteLesson(p, date);
    LevelBounds(q.completedLessons, q.earnedRewards);
    LevelMonotone(p.completedLessons, p.earnedRewards, q.completedLessons, q.earnedRewards);
  }

  /**
   * Completing one lesson from the default record reaches level 2 when the date
   * is a reward day (30 January of any year, such as 2024) and stays at level 1
   * otherwise.
   */
  lemma {:induction false} FirstCompletionLevel(d: CalendarDate)
    ensures CompleteLesson(DefaultProgress(), d).currentLevel == if d.month == 1 && d.day == 30 then 2 else 1
  {
    FirstCompletionLists(d);
    SingleDateLevels(d);
  }

  lemma FirstCompletionLists(d: CalendarDate)
    ensures CompleteLesson(DefaultProgress(), d).completedLessons == [d]
    ensures CompleteLesson(DefaultProgress(), d).earnedRewards == if EarnsReward(d) then [d] else []
  {
    assert AppendIfAbsent([], d) == [d];
  }

  lemma SingleDateLevels(d: Date)
    ensures LevelFor([d], [d]) == 2 && LevelFor([d], []) == 1
  {
    assert MonthsOf([d]) == {(d.year, d.month)} by { MonthsOfAppend([], d); assert [] + [d] == [d]; }
    assert MonthsOf([]) == {};
  }

  // ---------------------------------------------------------- the invariant

  /**
   * What the operations keep true of the record: no duplicate dates, every
   * reward date also completed and a 30 January, a non-negative streak, and a
   * level equal to the one derived from the lists.
   */
  predicate ProgressInvariant(p: Progress) {
    NoDuplicates(p.completedLessons) && NoDuplicates(p.earnedRewards)
    && (forall d :: d in p.earnedRewards ==> d in p.completedLessons && d.month == 1 && d.day == 30)
    && p.currentStreak >= 0
    && p.currentLevel == LevelFor(p.completedLessons, p.earnedRewards)
  }

  /** The default record satisfies the invariant. */
  lemma DefaultSatisfiesInvariant()
    ensures ProgressInvariant(DefaultProgress())
  {
    assert MonthsOf([]) == {};
  }

  /** Opening the app keeps the invariant, whatever the persisted snapshot holds. */
  lemma OpenKeepsInvariant(p: Progress, today: CalendarDate, saved: Option<Progress>)
    requires ProgressInvariant(p)
    ensures ProgressInvariant(OpenApp(p, today, saved))
  {
  }

  /** Completing a lesson keeps the invariant. */
  lemma {:induction false} CompleteKeepsInvariant(p: Progress, date: CalendarDate)
    ensures ProgressInvariant(p) ==> ProgressInvariant(CompleteLesson(p, date))
  {
    if ProgressInvariant(p) {
      var q := CompleteLesson(p, date);
      assert forall d :: d in q.earnedRewards ==> d in p.earnedRewards || (d == date && EarnsReward(date));
      assert forall d :: d in p.completedLessons ==> d in q.completedLessons;
    }
  }

  // ------------------------------------------------------ month completion

  /** `year || currentYear`: a missing or zero year means the current year. */
  function EffectiveYear(year: Option<nat>, currentYear: nat): nat {
    if year.None? || year.value == 0 then currentYear else year.value
  }

  /** The days `1 <= d < k` of month `m` of year `y` whose date is in `lessons`. */
  function DaysUpTo(lessons: seq<Date>, y: nat, m: nat, k: nat): set<nat> {
    set d: nat | 1 <= d < k && Date(y, m, d) in lessons
  }

  lemma DaysUpToStep(lessons: seq<Date>, y: nat, m: nat, k: nat)
    requires k >= 1
    ensures DaysUpTo(lessons, y, m, k + 1)
      == DaysUpTo(lessons, y, m, k) + (if Date(y, m, k) in lessons then {k} else {})
    ensures k !in DaysUpTo(lessons, y, m, k)
  {
  }

  /** The days of month `m` of year `y` whose date is in `lessons`. */
  function CompletedDaysIn(lessons: seq<Date>, y: nat, m: nat): set<nat>
    requires 1 <= m <= 12
  {
    DaysUpTo(lessons, y, m, DaysInMonth(y, m) + 1)
  }

  /**
   * Whether at least 80% of the calendar days of the month are completed
   * (`completed / daysInMonth >= 0.8`, written `5 * completed >= 4 * daysInMonth`).
   */
  predicate MonthCompleted(lessons: seq<Date>, month: int, year: Option<nat>, currentYear: nat) {
    var ym := JsYearMonth(EffectiveYear(year, currentYear), month);
    5 * |CompletedDaysIn(lessons, ym.0, ym.1)| >= 4 * DaysInMonth(ym.0, ym.1)
  }

  /** For a 31-day month, 25 completed days are enough and 24 are not. */
  lemma MonthThreshold(lessons: seq<Date>, month: int, year: Option<nat>, currentYear: nat)
    ensures var ym := JsYearMonth(EffectiveYear(year, currentYear), month);
      DaysInMonth(ym.0, ym.1) == 31 ==>
        (MonthCompleted(lessons, month, year, currentYear) <==> |CompletedDaysIn(lessons, ym.0, ym.1)| >= 25)
  {
  }

  // ------------------------------------------------------------- statistics

  function Stats(p: Progress): UserStats {
    UserStats(|p.completedLessons|, p.currentStreak, p.currentLevel)
  }

  lemma {:induction false} DistinctCount(s: seq<Date>)
    requires NoDuplicates(s)
    ensures |set d | d in s| == |s|
  {
    if s != [] {
      var t := s[..|s| - 1];
      assert s == t + [s[|s| - 1]];
      DistinctCount(t);
      assert (set d | d in s) == (set d | d in t) + {s[|s| - 1]};
    }
  }

  /** Under the invariant the completed count is the number of distinct completed dates. */
  lemma StatsCountDistinctLessons(p: Progress)
    ensures ProgressInvariant(p) ==> Stats(p).completed == |set d | d in p.completedLessons|
  {
    if ProgressInvariant(p) {
      DistinctCount(p.completedLessons);
    }
  }

  /** After a reset the statistics are 0 completed, streak 0, level 1. */
  lemma ResetStats()
    ensures Stats(DefaultProgress()) == UserStats(0, 0, 1)
  {
  }

  // ------------------------------------------------------ string membership

  /** The stored key list of a date list. */
  function StorageKeys(s: seq<Date>): (keys: seq<string>)
    ensures |keys| == |s|
  {
    seq(|s|, i requires 0 <= i < |s| => StorageKey(s[i]))
  }

  /** Looking a date's key up in the stored key list is looking the date up in the date list. */
  lemma KeyMembership(s: seq<Date>, date: Date)
    ensures StorageKey(date) in StorageKeys(s) <==> date in s
  {
    forall i | 0 <= i < |s| ensures StorageKeys(s)[i] == StorageKey(date) <==> s[i] == date {
      StorageKeyInjective(s[i], date);
    }
  }

  // ------------------------------------------------------ counting months

  /** The set of months a list of dates falls in, gathered one date at a time. */
  method CollectMonths(dates: seq<Date>) returns (months: set<(nat, nat)>)
    ensures months == MonthsOf(dates)
  {
    months := {};
    for i := 0 to |dates|
      invariant months == MonthsOf(dates[..i])
    {
      MonthsOfAppend(dates[..i], dates[i]);
      assert dates[..i + 1] == dates[..i] + [dates[i]];
      months := months + {MonthOf(dates[i])};
    }
    assert dates[..|dates|] == dates;
  }

  lemma SharedGrows(visited: set<(nat, nat)>, month: (nat, nat), other: set<(nat, nat)>)
    requires month !in visited
    ensures month in other ==> |(visited + {month}) * other| == |visited * other| + 1
    ensures month !in other ==> |(visited + {month}) * other| == |visited * other|
  {
    if month in other {
      assert (visited + {month}) * other == visited * other + {month};
    } else {
      assert (visited + {month}) * other == visited * other;
    }
  }

  /** Counts the months of `mine` that are also in `other`, visiting them one by one. */
  method CountShared(mine: set<(nat, nat)>, other: set<(nat, nat)>) returns (n: nat)
    ensures n == |mine * other|
  {
    n := 0;
    var remaining := mine;
    var visited: set<(nat, nat)> := {};
    while remaining != {}
      invariant remaining + visited == mine && remaining !! visited
      invariant n == |visited * other|
      decreases remaining
    {
      var month :| month in remaining;
      SharedGrows(visited, month, other);
      if month in other {
        n := n + 1;
      }
      remaining := remaining - {month};
      visited := visited + {month};
    }
  }

  /**
   * `getCompletedMonths`: gathers the months of each list into a set, then counts
   * the lesson months that also have a reward.
   */
  method GetCompletedMonths(completedLessons: seq<Date>, earnedRewards: seq<Date>) returns (completedMonths: nat)
    ensures completedMonths == |MonthsOf(completedLessons) * MonthsOf(earnedRewards)|
  {
    var monthsWithLessons := CollectMonths(completedLessons);
    var monthsWithRewards := CollectMonths(earnedRewards);
    completedMonths := CountShared(monthsWithLessons, monthsWithRewards);
  }

  // ------------------------------------------------------------- the hook

  /**
   * The body of `markLessonCompleted` on a record: append the date if absent, add
   * it to the rewards when its article is flagged, and derive the level.
   */
  method CompleteRecord(p: Progress, date: CalendarDate) returns (q: Progress)
    ensures q == CompleteLesson(p, date)
  {
    ghost var expected := CompleteLesson(p, date);
    var article := GetArticleForDate(date);
    var newCompletedLessons := p.completedLessons;
    if date !in newCompletedLessons {
      newCompletedLessons := newCompletedLessons + [date];
    }
    var newEarnedRewards := p.earnedRewards;
    assert EarnsReward(date) == FlaggedRewardDay(article);
    if article.Some? && article.value.isRewardDay == Some(true) && date !in newEarnedRewards {
      newEarnedRewards := newEarnedRewards + [date];
    }
    assert newCompletedLessons == expected.completedLessons;
    assert newEarnedRewards == expected.earnedRewards;
    var completedMonths := GetCompletedMonths(newCompletedLessons, newEarnedRewards);
    var newLevel := if 1 > completedMonths + 1 then 1 else completedMonths + 1;
    assert newLevel == expected.currentLevel;
    q := p.(completedLessons := newCompletedLessons, earnedRewards := newEarnedRewards, currentLevel := newLevel);
  }

  /** The hook's in-memory record, replaced field by field by its operations. */
  class ProgressHook {
    var completedLessons: seq<Date>
    var lastActiveDate: Option<CalendarDate>
    var currentStreak: int
    var currentLevel: int
    var earnedRewards: seq<Date>

    function Snapshot(): Progress
      reads this
    {
      Progress(completedLessons, lastActiveDate, currentStreak, currentLevel, earnedRewards)
    }

    /**
     * The progress invariant of the record held in memory. A record read back from
     * storage need not satisfy it, so the operations promise to keep it, not to
     * establish it.
     */
    ghost predicate Valid()
      reads this
    {
      ProgressInvariant(Snapshot())
    }

    constructor ()
      ensures Snapshot() == DefaultProgress() && Valid()
    {
      completedLessons, lastActiveDate, currentStreak, currentLevel, earnedRewards := [], None, 0, 1, [];
      DefaultSatisfiesInvariant();
    }

    /** `updateStreakOnAppOpen`, with the persisted snapshot and today's date as inputs. */
    method UpdateStreakOnAppOpen(today: CalendarDate, saved: Option<Progress>)
      modifies this
      ensures Snapshot() == OpenApp(old(Snapshot()), today, saved)
      ensures old(Valid()) ==> Valid()
    {
      ghost var before := Snapshot();
      if saved.Some? {
        var lastActive := saved.value.lastActiveDate;
        if lastActive.Some? {
          var daysDiff := DayOrdinal(today) - DayOrdinal(lastActive.value);
          if daysDiff == 1 {
            currentStreak, lastActiveDate := currentStreak + 1, Some(today);
          } else if daysDiff > 1 {
            currentStreak, lastActiveDate := 1, Some(today);
          }
        } else {
          currentStreak, lastActiveDate := 1, Some(today);
        }
      } else {
        currentStreak, lastActiveDate := 1, Some(today);
      }
      if ProgressInvariant(before) {
        OpenKeepsInvariant(before, today, saved);
      }
    }

    /** `markLessonCompleted`. */
    method MarkLessonCompleted(date: CalendarDate)
      modifies this
      ensures Snapshot() == CompleteLesson(old(Snapshot()), date)
      ensures old(Valid()) ==> Valid()
    {
      ghost var before := Snapshot();
      var next := CompleteRecord(Snapshot(), date);
      completedLessons, earnedRewards, currentLevel := next.completedLessons, next.earnedRewards, next.currentLevel;
      assert Snapshot() == next;
      CompleteKeepsInvariant(before, date);
    }

    /** `isLessonCompleted`: whether the date's key is among the stored keys. */
    function IsLessonCompleted(date: Date): (b: bool)
      reads this
      ensures b <==> StorageKey(date) in StorageKeys(completedLessons)
    {
      KeyMembership(completedLessons, date);
      date in completedLessons
    }

    /** `getStats`: under the invariant the completed count is the number of distinct completed dates. */
    function GetStats(): (s: UserStats)
      reads this
      ensures s.completed == |completedLessons| && s.streak == currentStreak && s.level == currentLevel
      ensures Valid() ==> s.completed == |set d | d in completedLessons|
    {
      StatsCountDistinctLessons(Snapshot());
      Stats(Snapshot())
    }

    /** `resetProgress`. */
    method ResetProgress()
      modifies this
      ensures Snapshot() == DefaultProgress() && Valid()
    {
      completedLessons, lastActiveDate, currentStreak, currentLevel, earnedRewards := [], None, 0, 1, [];
      DefaultSatisfiesInvariant();
    }

    /**
     * `isMonthCompleted`: counts the days of the month whose lesson is completed
     * and compares with 80% of the month's length. `currentYear` is the clock's
     * year, used when `year` is missing or zero.
     */
    method IsMonthCompleted(month: int, year: Option<nat>, currentYear: nat) returns (b: bool)
      ensures b == MonthCompleted(completedLessons, month, year, currentYear)
    {
      var ym := JsYearMonth(EffectiveYear(year, currentYear), month);
      var daysInMonth := DaysInMonth(ym.0, ym.1);
      var completedDaysInMonth := 0;
      for day := 1 to daysInMonth + 1
        invariant completedDaysInMonth == |DaysUpTo(completedLessons, ym.0, ym.1, day)|
      {
        DaysUpToStep(completedLessons, ym.0, ym.1, day);
        if IsLessonCompleted(Date(ym.0, ym.1, day)) {
          completedDaysInMonth := completedDaysInMonth + 1;
        }
      }
      b := 5 * completedDaysInMonth >= 4 * daysInMonth;
    }
  }
}
