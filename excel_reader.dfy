/**
 * Loading daily articles from a spreadsheet: one row per article, optional
 * cells kept only when they hold visible text, with a cache.
 */
module ExcelReader {
  import opened Wrappers
  import opened Dates
  import opened DailyArticles

  /** One spreadsheet row, named after its columns; `None` is an absent cell. */
  datatype ExcelRow = ExcelRow(
    Day: int, Month: int, Title: string, Description: string,
    FullContent: Option<string>, ExternalLink: Option<string>,
    ChallengeType: string, IsRewardDay: string,
    RewardTitle: Option<string>, RewardMessage: Option<string>)

  const DefaultArticlesPath := "/dailyArticles.xlsx"

  /** The `filePath` parameter with its default: an omitted path is the articles workbook. */
  function FilePath(filePath: Option<string>): (path: string)
    ensures filePath.Some? ==> path == filePath.value
    ensures filePath.None? ==> path == DefaultArticlesPath
  {
    if filePath.Some? then filePath.value else DefaultArticlesPath
  }

  /** The error thrown when the spreadsheet cannot be fetched. */
  function NotFoundMessage(path: string): string {
    "Excel file not found: " + path + ". Make sure the file is in the public directory."
  }

  /** The white space and line terminators that `String.prototype.trim` removes. */
  predicate IsJsWhitespace(c: char) {
    var n := c as int;
    n == 0x09 || n == 0x0A || n == 0x0B || n == 0x0C || n == 0x0D || n == 0x20 || n == 0xA0
    || n == 0x1680 || (0x2000 <= n <= 0x200A) || n == 0x2028 || n == 0x2029 || n == 0x202F
    || n == 0x205F || n == 0x3000 || n == 0xFEFF
  }

  /** Whether `s` holds a character that trimming keeps. */
  predicate HasVisibleChar(s: string) {
    exists i :: 0 <= i < |s| && !IsJsWhitespace(s[i])
  }

  /** `s` without its leading white space. */
  function TrimStart(s: string): (r: string)
    ensures |r| <= |s| && r == s[|s| - |r|..]
    ensures r == [] || !IsJsWhitespace(r[0])
    ensures forall i :: 0 <= i < |s| - |r| ==> IsJsWhitespace(s[i])
  {
    if s != [] && IsJsWhitespace(s[0]) then TrimStart(s[1..]) else s
  }

  /** `s` without its trailing white space. */
  function TrimEnd(s: string): (r: string)
    ensures |r| <= |s| && r == s[..|r|]
    ensures r == [] || !IsJsWhitespace(r[|r| - 1])
    ensures forall i :: |r| <= i < |s| ==> IsJsWhitespace(s[i])
  {
    if s != [] && IsJsWhitespace(s[|s| - 1]) then TrimEnd(s[..|s| - 1]) else s
  }

  /** `s.trim()`. */
  function Trim(s: string): string {
    TrimEnd(TrimStart(s))
  }

  /** Trimming leaves text exactly when there is a character that is not white space. */
  lemma TrimNonEmpty(s: string)
    ensures Trim(s) != [] <==> HasVisibleChar(s)
  {
    var t := TrimStart(s);
    var k := |s| - |t|;
    if Trim(s) != [] {
      assert t != [];
      assert s[k] == t[0];
    }
  }

  /** The truthiness of an optional cell: present and not the empty string. */
  predicate Truthy(cell: Option<string>) {
    cell.Some? && cell.value != ""
  }

  /** `cell || ''`. */
  function OrEmpty(cell: Option<string>): (s: string)
    ensures Truthy(cell) ==> s == cell.value
    ensures !Truthy(cell) ==> s == ""
  {
    if Truthy(cell) then cell.value else ""
  }

  /** A content cell is kept, untrimmed, only when it holds visible text. */
  function KeptIfVisible(cell: Option<string>): (r: Option<string>)
    ensures r.Some? <==> cell.Some? && HasVisibleChar(cell.value)
    ensures r.Some? ==> r == cell
  {
    if cell.None? then None
    else
      TrimNonEmpty(cell.value);
      if Truthy(cell) && Trim(cell.value) != [] then cell else None
  }

  /**
   * The `map` callback: copies the required cells; keeps content and link only
   * when they hold visible text; a reward day only for the exact text "TRUE",
   * and a reward only on a reward day with a title or message.
   */
  function RowToArticle(row: ExcelRow): (a: DailyArticle)
    ensures a.day == row.Day && a.month == row.Month && a.challengeType == row.ChallengeType
    ensures a.title == row.Title && a.description == row.Description
    ensures a.fullContent.Some? <==> row.FullContent.Some? && HasVisibleChar(row.FullContent.value)
    ensures a.fullContent.Some? ==> a.fullContent == row.FullContent
    ensures a.externalLink.Some? <==> row.ExternalLink.Some? && HasVisibleChar(row.ExternalLink.value)
    ensures a.externalLink.Some? ==> a.externalLink == row.ExternalLink
    ensures a.isRewardDay == if row.IsRewardDay == "TRUE" then Some(true) else None
    ensures a.reward.Some? <==> row.IsRewardDay == "TRUE" && (Truthy(row.RewardTitle) || Truthy(row.RewardMessage))
    ensures a.reward.Some? ==> a.reward.value == Reward(OrEmpty(row.RewardTitle), OrEmpty(row.RewardMessage))
  {
    var rewardDay := row.IsRewardDay == "TRUE";
    var reward :=
      if rewardDay && (Truthy(row.RewardTitle) || Truthy(row.RewardMessage))
      then Some(Reward(OrEmpty(row.RewardTitle), OrEmpty(row.RewardMessage)))
      else None;
    DailyArticle(row.Day, row.Month, row.Title, row.Description,
                 KeptIfVisible(row.FullContent), KeptIfVisible(row.ExternalLink),
                 row.ChallengeType, if rewardDay then Some(true) else None, reward)
  }

  /** A loaded article counts as a reward day exactly when its cell reads "TRUE". */
  lemma FlaggedOnlyByTrueText(row: ExcelRow)
    ensures FlaggedRewardDay(Some(RowToArticle(row))) <==> row.IsRewardDay == "TRUE"
    ensures RowToArticle(row).reward.Some? ==> FlaggedRewardDay(Some(RowToArticle(row)))
  {
  }

  /** `rawData.map(...)`: one article per row, in row order. */
  function ArticlesFromRows(rows: seq<ExcelRow>): (articles: seq<DailyArticle>)
    ensures |articles| == |rows|
    ensures forall i :: 0 <= i < |rows| ==> articles[i] == RowToArticle(rows[i])
  {
    seq(|rows|, i requires 0 <= i < |rows| => RowToArticle(rows[i]))
  }

  /** Whether a row is the one for the given day and month. */
  predicate RowMatches(row: ExcelRow, day: int, month: int) {
    row.Day == day && row.Month == month
  }

  /**
   * Finding an article among loaded ones finds the article of the first row for
   * that day and month, and nothing when no row is for it.
   */
  lemma FindInLoaded(rows: seq<ExcelRow>, day: int, month: int)
    ensures FindArticle(ArticlesFromRows(rows), day, month).None? <==>
      forall i :: 0 <= i < |rows| ==> !RowMatches(rows[i], day, month)
    ensures FindArticle(ArticlesFromRows(rows), day, month).Some? ==>
      exists k :: (0 <= k < |rows| && RowMatches(rows[k], day, month)
        && FindArticle(ArticlesFromRows(rows), day, month).value == RowToArticle(rows[k])
        && forall j :: 0 <= j < k ==> !RowMatches(rows[j], day, month))
  {
    var articles := ArticlesFromRows(rows);
    var r := FindArticle(articles, day, month);
    if r.Some? {
      var k :| 0 <= k < |articles| && articles[k] == r.value
        && forall j :: 0 <= j < k ==> !Matches(articles[j], day, month);
      assert RowMatches(rows[k], day, month);
      assert forall j :: 0 <= j < k ==> !RowMatches(rows[j], day, month) by {
        forall j | 0 <= j < k ensures !RowMatches(rows[j], day, month) {
          assert !Matches(articles[j], day, month);
        }
      }
    } else {
      forall i | 0 <= i < |rows| ensures !RowMatches(rows[i], day, month) {
        assert !Matches(articles[i], day, month);
      }
    }
  }

  /** The module-level cache of loaded articles. */
  class ArticleCache {
    var cachedArticles: Option<seq<DailyArticle>>
    /** The rows the cached articles were built from. */
    ghost var sourceRows: seq<ExcelRow>

    ghost predicate Valid()
      reads this
    {
      cachedArticles.Some? ==> cachedArticles.value == ArticlesFromRows(sourceRows)
    }

    constructor ()
      ensures Valid() && cachedArticles == None
    {
      cachedArticles := None;
      sourceRows := [];
    }

    /**
     * `loadArticlesFromExcel`: the cached articles when there are any (even none
     * at all); otherwise the fetched sheet's rows (`None` when the fetch fails)
     * turned into articles and cached, or the not-found error.
     */
    method LoadArticlesFromExcel(filePath: Option<string>, sheet: Option<seq<ExcelRow>>) returns (r: Result<seq<DailyArticle>>)
      requires Valid()
      modifies this
      ensures Valid()
      ensures old(cachedArticles).Some? ==>
                (r == Success(old(cachedArticles).value) && cachedArticles == old(cachedArticles)
                 && sourceRows == old(sourceRows))
      ensures old(cachedArticles).None? && sheet.None? ==>
                (r == Failure(NotFoundMessage(FilePath(filePath))) && cachedArticles == None)
      ensures old(cachedArticles).None? && sheet.Some? ==>
                (r == Success(ArticlesFromRows(sheet.value)) && cachedArticles == Some(r.value)
                 && sourceRows == sheet.value)
      ensures r.Success? ==> r.value == ArticlesFromRows(sourceRows)
    {
      if cachedArticles.Some? {
        return Success(cachedArticles.value);
      }
      if sheet.None? {
        return Failure(NotFoundMessage(FilePath(filePath)));
      }
      var articles := ArticlesFromRows(sheet.value);
      cachedArticles := Some(articles);
      sourceRows := sheet.value;
      r := Success(articles);
    }

    /** `clearArticlesCache`. */
    method ClearArticlesCache()
      modifies this
      ensures Valid() && cachedArticles == None
    {
      cachedArticles := None;
    }

    /**
     * `getArticleForDateFromExcel`: the article of the first loaded row for the
     * date's day and month, if any; a load error propagates.
     */
    method GetArticleForDateFromExcel(date: Date, filePath: Option<string>, sheet: Option<seq<ExcelRow>>)
      returns (r: Result<Option<DailyArticle>>)
      requires Valid()
      modifies this
      ensures Valid()
      ensures old(cachedArticles).Some? ==> cachedArticles == old(cachedArticles) && sourceRows == old(sourceRows)
      ensures old(cachedArticles).None? && sheet.Some? ==>
                cachedArticles == Some(ArticlesFromRows(sheet.value)) && sourceRows == sheet.value
      ensures old(cachedArticles).None? && sheet.None? ==>
                r == Failure(NotFoundMessage(FilePath(filePath))) && cachedArticles == None
      ensures r.Failure? <==> old(cachedArticles).None? && sheet.None?
      ensures r.Success? ==> r.value == FindArticle(ArticlesFromRows(sourceRows), date.day, date.month)
      ensures r.Success? ==>
        (r.value.None? <==> forall i :: 0 <= i < |sourceRows| ==> !RowMatches(sourceRows[i], date.day, date.month))
    {
      var loaded := LoadArticlesFromExcel(filePath, sheet);
      if loaded.Failure? {
        return Failure(loaded.error);
      }
      FindInLoaded(sourceRows, date.day, date.month);
      r := Success(FindArticle(loaded.value, date.day, date.month));
    }
  }
}
