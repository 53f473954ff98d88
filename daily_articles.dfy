/**
 * The built-in table of daily articles and the lookups over it: an article is
 * keyed by day of month and month, whatever the year.
 */
module DailyArticles {
  import opened Wrappers
  import opened Dates

  /** The reward shown on a reward day. */
  datatype Reward = Reward(title: string, message: string)

  /**
   * One daily lesson. `challengeType` is kept as a string because the spreadsheet
   * loader casts whatever the cell holds without checking it.
   */
  datatype DailyArticle = DailyArticle(
    day: int,
    month: int,
    title: string,
    description: string,
    fullContent: Option<string>,
    externalLink: Option<string>,
    challengeType: string,
    isRewardDay: Option<bool>,
    reward: Option<Reward>)

  const Individual: string := "individual"
  const Family: string := "family"
  const SocialMedia: string := "social-media"

  predicate IsChallengeType(s: string) {
    s == Individual || s == Family || s == SocialMedia
  }

  /** An ordinary table entry; its prose is not part of the model. */
  function Lesson(day: int, month: int, challengeType: string): DailyArticle {
    DailyArticle(day, month, "", "", None, None, challengeType, None, None)
  }

  /** A table entry flagged as a reward day and carrying a reward. */
  function RewardLesson(day: int, month: int, challengeType: string): DailyArticle {
    DailyArticle(day, month, "", "", None, None, challengeType, Some(true), Some(Reward("", "")))
  }

  /** Whether `a` is the article for the given day and month. */
  predicate Matches(a: DailyArticle, day: int, month: int) {
    a.day == day && a.month == month
  }

  /** The truthiness of `article?.isRewardDay`. */
  predicate FlaggedRewardDay(a: Option<DailyArticle>) {
    a.Some? && a.value.isRewardDay == Some(true)
  }

  /**
   * The challenge of each January day, in day order, as an index into
   * individual (0), family (1) and social-media (2).
   */
  const JanuaryChallenges: seq<nat> := [0, 0, 0, 1, 1, 1, 1, 1, 1, 1, 1, 1, 1, 1, 1, 2, 2, 1, 1, 1, 2, 0, 1, 2, 1, 2, 2, 2, 2, 0]

  function ChallengeName(code: nat): string {
    if code == 0 then Individual else if code == 1 then Family else SocialMedia
  }

  /** Entry `i` of the built-in table. */
  function TableEntry(i: nat): DailyArticle
    requires i < 31
  {
    if i < 29 then Lesson(i + 1, 1, ChallengeName(JanuaryChallenges[i]))
    else if i == 29 then RewardLesson(30, 1, ChallengeName(JanuaryChallenges[29]))
    else Lesson(1, 2, Individual)
  }

  /**
   * The built-in table: days 1..30 of January, the 30th flagged as the reward
   * day, then 1 February.
   */
  function DailyArticleTable(): (t: seq<DailyArticle>)
    ensures |t| == 31
    ensures forall i :: 0 <= i < |t| ==> 1 <= t[i].month <= 12 && 1 <= t[i].day <= 31
    ensures forall i :: 0 <= i < |t| ==> IsChallengeType(t[i].challengeType)
    ensures forall i :: 0 <= i < |t| ==>
      (t[i].isRewardDay == Some(true) <==> t[i].day == 30 && t[i].month == 1)
    ensures forall i :: 0 <= i < |t| && t[i].isRewardDay == Some(true) ==> t[i].reward.Some?
    ensures forall i :: 0 <= i < 30 ==> t[i].month == 1 && t[i].day == i + 1
    ensures t[30].month == 2 && t[30].day == 1
  {
    seq(31, i requires 0 <= i < 31 => TableEntry(i))
  }

  /**
   * `articles.find(a => a.day === day && a.month === month)`: the first article in
   * table order with that day and month, or `None` when there is none.
   */
  function FindArticle(articles: seq<DailyArticle>, day: int, month: int): (r: Option<DailyArticle>)
    ensures r.None? <==> forall i :: 0 <= i < |articles| ==> !Matches(articles[i], day, month)
    ensures r.Some? ==> Matches(r.value, day, month)
    ensures r.Some? ==> exists k :: (0 <= k < |articles| && articles[k] == r.value
      && forall j :: 0 <= j < k ==> !Matches(articles[j], day, month))
  {
    if articles == [] then None
    else if Matches(articles[0], day, month) then Some(articles[0])
    else
      var r := FindArticle(articles[1..], day, month);
      assert r.Some? ==> exists k :: (0 <= k < |articles| && articles[k] == r.value
        && forall j :: 0 <= j < k ==> !Matches(articles[j], day, month)) by {
        if r.Some? {
          var k :| 0 <= k < |articles[1..]| && articles[1..][k] == r.value
            && forall j :: 0 <= j < k ==> !Matches(articles[1..][j], day, month);
          assert articles[k + 1] == r.value;
          assert forall j :: 0 <= j < k + 1 ==> !Matches(articles[j], day, month) by {
            forall j | 0 <= j < k + 1 ensures !Matches(articles[j], day, month) {
              if j > 0 { assert articles[j] == articles[1..][j - 1]; }
            }
          }
        }
      }
      r
  }

  /** When the k-th article is the first match, `FindArticle` returns it. */
  lemma FindArticleIsFirst(articles: seq<DailyArticle>, day: int, month: int, k: nat)
    requires k < |articles| && Matches(articles[k], day, month)
    requires forall j :: 0 <= j < k ==> !Matches(articles[j], day, month)
    ensures FindArticle(articles, day, month) == Some(articles[k])
  {
    var r := FindArticle(articles, day, month);
    var k' :| 0 <= k' < |articles| && articles[k'] == r.value
      && forall j :: 0 <= j < k' ==> !Matches(articles[j], day, month);
  }

  /**
   * `getArticleForDate`: the table article for the date's day and month; the
   * year plays no part.
   */
  function GetArticleForDate(date: Date): (r: Option<DailyArticle>)
    ensures r.Some? ==> r.value.day == date.day && r.value.month == date.month
    ensures r.Some? <==> (date.month == 1 && 1 <= date.day <= 30) || (date.month == 2 && date.day == 1)
  {
    var t := DailyArticleTable();
    var r := FindArticle(t, date.day, date.month);
    assert r.Some? ==> (date.month == 1 && 1 <= date.day <= 30) || (date.month == 2 && date.day == 1);
    assert date.month == 1 && 1 <= date.day <= 30 ==> Matches(t[date.day - 1], date.day, date.month);
    assert date.month == 2 && date.day == 1 ==> Matches(t[30], date.day, date.month);
    r
  }

  /** `isRewardDay`: the 30th of any month counts as a reward day. */
  function IsRewardDay(date: Date): (b: bool)
    ensures b <==> date.day == 30
  {
    date.day == 30
  }

  /**
   * The only table article flagged as a reward day is 30 January, so a flagged
   * lookup is a reward day by `IsRewardDay` too, but `IsRewardDay` also holds on
   * the 30th of months whose article is not flagged.
   */
  lemma FlaggedArticleIsJanuary30(date: Date)
    ensures FlaggedRewardDay(GetArticleForDate(date)) <==> date.month == 1 && date.day == 30
    ensures FlaggedRewardDay(GetArticleForDate(date)) ==> IsRewardDay(date)
  {
    var t := DailyArticleTable();
    if date.month == 1 && date.day == 30 {
      FindArticleIsFirst(t, 30, 1, 29);
    }
  }
}
