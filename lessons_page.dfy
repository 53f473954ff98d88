/**
 * The lessons overview: articles grouped by month, the months offered in the
 * selector, the completed count of the selected month and the route a lesson
 * opens.
 */
module LessonsPage {
  import opened Wrappers
  import opened Dates
  import opened DateKeys
  import opened DailyArticles

  /** The articles of month `m`, in their original order. */
  function ArticlesInMonth(articles: seq<DailyArticle>, m: int): (r: seq<DailyArticle>)
    ensures |r| <= |articles|
    ensures forall a :: a in r <==> a in articles && a.month == m
    ensures m !in ArticleMonths(articles) ==> r == []
  {
    if articles == [] then []
    else
      var n := |articles| - 1;
      assert articles == articles[..n] + [articles[n]];
      assert ArticleMonths(articles[..n]) <= ArticleMonths(articles);
      ArticlesInMonth(articles[..n], m) + if articles[n].month == m then [articles[n]] else []
  }

  function ArticleMonths(articles: seq<DailyArticle>): set<int> {
    set a | a in articles :: a.month
  }

  /** What the `reduce` builds: each month that has articles, with its articles. */
  function BucketsOf(articles: seq<DailyArticle>): map<int, seq<DailyArticle>> {
    map m | m in ArticleMonths(articles) :: ArticlesInMonth(articles, m)
  }

  /** Every article is in the bucket of its own month and in no other. */
  lemma BucketsPartition(articles: seq<DailyArticle>, a: DailyArticle, m: int)
    requires a in articles
    ensures a.month in BucketsOf(articles) && a in BucketsOf(articles)[a.month]
    ensures m != a.month && m in BucketsOf(articles) ==> a !in BucketsOf(articles)[m]
  {
  }

  lemma BucketsSnoc(articles: seq<DailyArticle>, a: DailyArticle)
    ensures BucketsOf(articles + [a]) ==
      BucketsOf(articles)[a.month := (if a.month in BucketsOf(articles) then BucketsOf(articles)[a.month] else []) + [a]]
  {
    var all := articles + [a];
    var before, after := BucketsOf(articles), BucketsOf(all);
    var expected := before[a.month := (if a.month in before then before[a.month] else []) + [a]];
    assert all[..|all| - 1] == articles;
    assert forall x :: x in all <==> x in articles || x == a;
    assert after.Keys == expected.Keys;
    forall m | m in after ensures after[m] == expected[m] {
      assert after[m] == ArticlesInMonth(articles, m) + if a.month == m then [a] else [];
    }
  }

  /** The `reduce` step by step: each article is pushed onto its month's bucket, made empty first if missing. */
  function Reduce(articles: seq<DailyArticle>): map<int, seq<DailyArticle>> {
    if articles == [] then map[]
    else
      var n := |articles| - 1;
      var acc := Reduce(articles[..n]);
      var m := articles[n].month;
      acc[m := (if m in acc then acc[m] else []) + [articles[n]]]
  }

  /** Pushing article after article yields exactly the month buckets. */
  lemma {:induction false} ReduceIsBuckets(articles: seq<DailyArticle>)
    ensures Reduce(articles) == BucketsOf(articles)
  {
    if articles != [] {
      var n := |articles| - 1;
      assert articles == articles[..n] + [articles[n]];
      ReduceIsBuckets(articles[..n]);
      BucketsSnoc(articles[..n], articles[n]);
    }
  }

  /** `articlesByMonth`: the `reduce` over the articles. */
  method GroupByMonth(articles: seq<DailyArticle>) returns (acc: map<int, seq<DailyArticle>>)
    ensures acc == BucketsOf(articles)
  {
    acc := map[];
    for i := 0 to |articles|
      invariant acc == Reduce(articles[..i])
    {
      var article := articles[i];
      assert articles[..i + 1][..i] == articles[..i];
      if article.month !in acc {
        acc := acc[article.month := []];
      }
      acc := acc[article.month := acc[article.month] + [article]];
    }
    assert articles[..|articles|] == articles;
    ReduceIsBuckets(articles);
  }

  /** `articlesByMonth[selectedMonth] || []`. */
  function CurrentMonthArticles(buckets: map<int, seq<DailyArticle>>, selectedMonth: int): seq<DailyArticle> {
    if selectedMonth in buckets then buckets[selectedMonth] else []
  }

  /** The months 1..k, in order, that have articles: the buttons of the month selector. */
  function OfferedMonths(buckets: map<int, seq<DailyArticle>>, k: nat): (ms: seq<int>)
    ensures |ms| <= k
  {
    if k == 0 then []
    else
      var earlier := OfferedMonths(buckets, k - 1);
      if k in buckets && |buckets[k]| > 0 then earlier + [k] else earlier
  }

  /** The selector offers exactly the months in 1..k with a non-empty bucket, in increasing order. */
  lemma {:induction false} OfferedMonthsExact(buckets: map<int, seq<DailyArticle>>, k: nat)
    ensures forall i :: 0 <= i < |OfferedMonths(buckets, k)| ==>
      var m := OfferedMonths(buckets, k)[i]; 1 <= m <= k && m in buckets && |buckets[m]| > 0
    ensures forall m :: 1 <= m <= k && m in buckets && |buckets[m]| > 0 ==> m in OfferedMonths(buckets, k)
    ensures forall i, j :: 0 <= i < j < |OfferedMonths(buckets, k)| ==>
      OfferedMonths(buckets, k)[i] < OfferedMonths(buckets, k)[j]
  {
    if k > 0 {
      OfferedMonthsExact(buckets, k - 1);
      var earlier := OfferedMonths(buckets, k - 1);
      if k in buckets && |buckets[k]| > 0 {
        var ms := earlier + [k];
        assert ms[|earlier|] == k;
        forall i | 0 <= i < |earlier| ensures ms[i] == earlier[i] && ms[i] < k { }
      }
    }
  }

  /** The built-in articles are in January and February. */
  lemma TableMonths()
    ensures ArticleMonths(DailyArticleTable()) == {1, 2}
  {
    var t := DailyArticleTable();
    assert t[0] in t && t[30] in t;
    forall m | m in ArticleMonths(t) ensures m == 1 || m == 2 {
      var a :| a in t && a.month == m;
      var i :| 0 <= i < |t| && t[i] == a;
    }
  }

  /** Months without articles add no button. */
  lemma {:induction false} NoMoreMonths(buckets: map<int, seq<DailyArticle>>, k: nat, j: nat)
    requires j <= k
    requires forall m :: j < m <= k ==> m !in buckets
    ensures OfferedMonths(buckets, k) == OfferedMonths(buckets, j)
  {
    if k > j {
      NoMoreMonths(buckets, k - 1, j);
    }
  }

  lemma OfferedForFirstTwo(buckets: map<int, seq<DailyArticle>>)
    requires 1 in buckets && 2 in buckets && |buckets[1]| > 0 && |buckets[2]| > 0
    ensures OfferedMonths(buckets, 2) == [1, 2]
  {
    var zero: nat := 0;
    assert OfferedMonths(buckets, zero) == [];
    assert OfferedMonths(buckets, zero + 1) == [1];
  }

  lemma OfferedForTwoMonths(buckets: map<int, seq<DailyArticle>>, k: nat)
    requires buckets.Keys == {1, 2} && |buckets[1]| > 0 && |buckets[2]| > 0
    requires k >= 2
    ensures OfferedMonths(buckets, k) == [1, 2]
  {
    forall m | 2 < m <= k ensures m !in buckets {
      assert m !in {1, 2};
    }
    NoMoreMonths(buckets, k, 2);
    OfferedForFirstTwo(buckets);
  }

  /**
   * With the built-in articles the selector (months 1..12, or any range from
   * February on) offers January and February only.
   */
  lemma TableOffersJanuaryAndFebruary(k: nat)
    requires k >= 2
    ensures OfferedMonths(BucketsOf(DailyArticleTable()), k) == [1, 2]
  {
    var t := DailyArticleTable();
    var b := BucketsOf(t);
    TableMonths();
    assert b.Keys == {1, 2};
    BucketsPartition(t, t[0], 1);
    BucketsPartition(t, t[30], 2);
    OfferedForTwoMonths(b, k);
  }

  /**
   * An article whose date does not roll over: its day exists in the month that
   * `new Date(currentYear, month - 1, day)` lands in.
   */
  predicate DayInMonth(a: DailyArticle, currentYear: nat) {
    var ym := JsYearMonth(currentYear, a.month);
    1 <= a.day <= DaysInMonth(ym.0, ym.1)
  }

  /** `new Date(currentYear, article.month - 1, article.day)`. */
  function ArticleDate(a: DailyArticle, currentYear: nat): (d: Date)
    requires DayInMonth(a, currentYear)
    ensures ValidDate(d) && d.day == a.day
    ensures 1 <= a.month <= 12 ==> d == Date(JsYear(currentYear), a.month, a.day)
  {
    var ym := JsYearMonth(currentYear, a.month);
    Date(ym.0, ym.1, a.day)
  }

  /** `completedInMonth`: how many of the articles have their date among the completed lessons. */
  function CompletedCount(bucket: seq<DailyArticle>, lessons: seq<Date>, currentYear: nat): (n: nat)
    requires forall a :: a in bucket ==> DayInMonth(a, currentYear)
    ensures n <= |bucket|
    ensures n == |bucket| <==> forall a :: a in bucket ==> ArticleDate(a, currentYear) in lessons
    ensures n == 0 <==> forall a :: a in bucket ==> ArticleDate(a, currentYear) !in lessons
  {
    if bucket == [] then 0
    else
      var n := |bucket| - 1;
      assert bucket == bucket[..n] + [bucket[n]];
      assert forall a :: a in bucket <==> a in bucket[..n] || a == bucket[n];
      CompletedCount(bucket[..n], lessons, currentYear)
        + if ArticleDate(bucket[n], currentYear) in lessons then 1 else 0
  }

  /** Every built-in article's day exists in its month, whatever the year. */
  lemma TableDaysInMonth(currentYear: nat, a: DailyArticle)
    requires a in DailyArticleTable()
    ensures DayInMonth(a, currentYear)
  {
    var t := DailyArticleTable();
    var i :| 0 <= i < |t| && t[i] == a;
  }

  /** The completed count of the selected month over the built-in articles. */
  function CompletedInMonth(lessons: seq<Date>, selectedMonth: int, currentYear: nat): (n: nat)
    ensures n <= |CurrentMonthArticles(BucketsOf(DailyArticleTable()), selectedMonth)|
  {
    var bucket := CurrentMonthArticles(BucketsOf(DailyArticleTable()), selectedMonth);
    forall a | a in bucket ensures DayInMonth(a, currentYear) {
      TableDaysInMonth(currentYear, a);
    }
    CompletedCount(bucket, lessons, currentYear)
  }

  /** `handleLessonClick`: the lesson route's date part, year unpadded, month and day two digits. */
  function LessonRoute(a: DailyArticle, currentYear: nat): (key: string)
    requires a.month >= 0 && a.day >= 0
    ensures ParseLessonKey(key) == Some(Date(currentYear, a.month, a.day))
  {
    LessonKeyRoundTrip(currentYear, a.month, a.day);
    LessonKey(currentYear, a.month, a.day)
  }

  /**
   * Opening a built-in article's lesson and marking it complete records the very
   * date the completed count looks for: the lesson page parses the route back
   * into the year, month and day, and builds its date as this page does.
   */
  lemma OpenedLessonIsCounted(a: DailyArticle, currentYear: nat)
    requires a in DailyArticleTable()
    ensures a.month >= 0 && a.day >= 0
    ensures ParseLessonKey(LessonRoute(a, currentYear)) == Some(Date(currentYear, a.month, a.day))
    ensures DayInMonth(a, currentYear)
    ensures ArticleDate(a, currentYear) == Date(JsYear(currentYear), a.month, a.day)
  {
    TableDaysInMonth(currentYear, a);
    LessonKeyRoundTrip(currentYear, a.month, a.day);
  }
}
