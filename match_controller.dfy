/**
 * The public handlers of controllers/matchController.js: the homepage of
 * upcoming matches, the results page, a match's detail page (related matches
 * and the view counter), the statistics block and the search endpoint.
 * `page` is the raw query parameter; the detail handler receives the slug as
 * `validateSlug` leaves it (trimmed).
 */
module MatchController {
  import opened Wrappers
  import opened Text
  import opened Database
  import opened Listing
  import opened Helpers
  import opened AdminController

  const ResultsPerPage: nat := 20

  /** `parseInt(req.query.page) || 1`. */
  function PageNumber(page: Option<string>): int {
    IntOr(JsParseInt(page), 1)
  }

  // ----------------------------------------------------------------- stats

  datatype Stats = Stats(total: nat, won: nat, upcoming: nat, winRate: nat)

  predicate IsFinishedWon(m: Match) {
    m.status == Finished && m.bet_status == Won
  }

  /** `getStats`: finished rows, the won ones among them, upcoming rows and the rounded win rate. */
  function GetStats(rows: map<nat, Match>): (r: Stats)
    ensures r.total == Count(rows, IsFinished) && r.won == Count(rows, IsFinishedWon)
    ensures r.upcoming == Count(rows, IsUpcoming)
    ensures r.won <= r.total
    ensures r.winRate <= 100
    ensures r.total == 0 ==> r.winRate == 0
    ensures r.total > 0 ==> (2 * r.winRate - 1) * r.total <= 200 * r.won < (2 * r.winRate + 1) * r.total
  {
    var total := Count(rows, IsFinished);
    var won := Count(rows, IsFinishedWon);
    CountMonotone(rows, IsFinishedWon, IsFinished);
    Stats(total, won, Count(rows, IsUpcoming), if total > 0 then WinRate(won, total) else 0)
  }

  /** With every finished bet won the rate is 100; with none won it is 0. */
  lemma GetStatsExtremes(rows: map<nat, Match>)
    requires Count(rows, IsFinished) > 0
    ensures Count(rows, IsFinishedWon) == Count(rows, IsFinished) ==> GetStats(rows).winRate == 100
    ensures Count(rows, IsFinishedWon) == 0 ==> GetStats(rows).winRate == 0
  {
    WinRateExtremes(Count(rows, IsFinished));
  }

  // -------------------------------------------------------------- homepage

  datatype HomePage = HomePage(matches: seq<Match>, pagination: Pagination, stats: Stats)

  /** `getHomepage`: upcoming matches, soonest first, 20 per page. */
  function GetHomepage(rows: map<nat, Match>, page: Option<string>): (r: HomePage)
    ensures IsPage(r.matches, rows, IsUpcoming, Asc, (PageNumber(page) - 1) * 20, 20)
    ensures |r.matches| == PageLength(Count(rows, IsUpcoming), (PageNumber(page) - 1) * 20, 20)
    ensures forall m :: m in r.matches ==> m in rows.Values && m.status == Upcoming
    ensures SortedBy(r.matches, Asc)
    ensures r.pagination == Paginate(Count(rows, IsUpcoming), PageNumber(page), 20)
    ensures r.stats == GetStats(rows)
  {
    var pageNo := PageNumber(page);
    var matches := Query(rows, IsUpcoming, Asc, (pageNo - 1) * ResultsPerPage, ResultsPerPage);
    HomePage(matches, Paginate(Count(rows, IsUpcoming), pageNo, ResultsPerPage), GetStats(rows))
  }

  /** The first page shows the soonest upcoming matches: one it leaves out is no sooner than any it shows. */
  lemma HomepageSoonestFirst(rows: map<nat, Match>, x: Match, m: Match)
    requires x in GetHomepage(rows, None).matches
    requires m in rows.Values && m.status == Upcoming && m !in GetHomepage(rows, None).matches
    ensures x.match_date <= m.match_date
  {
    assert PageNumber(None) == 1;
    FirstPageBoundary(GetHomepage(rows, None).matches, rows, IsUpcoming, Asc, 0, 20, x, m);
  }

  /** With no page requested and at most 20 upcoming matches, the homepage lists all of them. */
  lemma HomepageFirstPageComplete(rows: map<nat, Match>)
    requires Count(rows, IsUpcoming) <= 20
    ensures multiset(GetHomepage(rows, None).matches) == multiset(Matching(rows, IsUpcoming))
  {
    var page := Query(rows, IsUpcoming, Asc, 0, 20);
    assert multiset(page) == multiset(Matching(rows, IsUpcoming)) by {
      QueryFirstPageComplete(rows, IsUpcoming, Asc, 0, 20);
    }
    assert GetHomepage(rows, None).matches == page by {
      assert PageNumber(None) == 1;
    }
  }

  // --------------------------------------------------------------- results

  datatype ResultsPage = ResultsPage(matches: seq<Match>, pagination: Pagination, winRate: nat)

  /** `getResults`: finished matches, latest first, 20 per page; the win rate covers this page only. */
  function GetResults(rows: map<nat, Match>, page: Option<string>): (r: ResultsPage)
    ensures IsPage(r.matches, rows, IsFinished, Desc, (PageNumber(page) - 1) * 20, 20)
    ensures |r.matches| == PageLength(Count(rows, IsFinished), (PageNumber(page) - 1) * 20, 20)
    ensures forall m :: m in r.matches ==> m in rows.Values && m.status == Finished
    ensures SortedBy(r.matches, Desc)
    ensures r.pagination == Paginate(Count(rows, IsFinished), PageNumber(page), 20)
    ensures r.winRate == CalculateWinRate(r.matches)
  {
    var pageNo := PageNumber(page);
    var matches := Query(rows, IsFinished, Desc, (pageNo - 1) * ResultsPerPage, ResultsPerPage);
    ResultsPage(matches, Paginate(Count(rows, IsFinished), pageNo, ResultsPerPage), CalculateWinRate(matches))
  }

  /** The first results page shows the latest finished matches: one it leaves out is no later than any it shows. */
  lemma ResultsLatestFirst(rows: map<nat, Match>, x: Match, m: Match)
    requires x in GetResults(rows, None).matches
    requires m in rows.Values && m.status == Finished && m !in GetResults(rows, None).matches
    ensures x.match_date >= m.match_date
  {
    assert PageNumber(None) == 1;
    FirstPageBoundary(GetResults(rows, None).matches, rows, IsFinished, Desc, 0, 20, x, m);
  }

  /** A page past the last one is empty, so its win rate is 0 whatever the record. */
  lemma ResultsPastLastPage(rows: map<nat, Match>, page: Option<string>)
    requires (PageNumber(page) - 1) * 20 >= Count(rows, IsFinished)
    ensures GetResults(rows, page).matches == [] && GetResults(rows, page).winRate == 0
  {
  }

  // ---------------------------------------------------------------- detail

  /** The `where` clause of the related-matches query. */
  function RelatedTo(m: Match): (p: Match -> bool)
    ensures forall x :: p(x) <==> x.league == m.league && x.id != m.id && x.status == Upcoming
  {
    (x: Match) => x.league == m.league && x.id != m.id && x.status == Upcoming
  }

  /** Up to four other upcoming matches of the same league, soonest first. */
  function RelatedMatches(rows: map<nat, Match>, m: Match): (r: seq<Match>)
    ensures IsPage(r, rows, RelatedTo(m), Asc, 0, 4)
    ensures |r| == if Count(rows, RelatedTo(m)) <= 4 then Count(rows, RelatedTo(m)) else 4
    ensures forall x :: x in r ==> x in rows.Values && x.league == m.league && x.id != m.id && x.status == Upcoming
    ensures SortedBy(r, Asc)
  {
    Query(rows, RelatedTo(m), Asc, 0, 4)
  }

  /** The related list holds the soonest candidates: one it leaves out is no sooner than any it shows. */
  lemma RelatedSoonest(rows: map<nat, Match>, m: Match, x: Match, y: Match)
    requires x in RelatedMatches(rows, m)
    requires y in rows.Values && y.league == m.league && y.id != m.id && y.status == Upcoming
    requires y !in RelatedMatches(rows, m)
    ensures x.match_date <= y.match_date
  {
    FirstPageBoundary(RelatedMatches(rows, m), rows, RelatedTo(m), Asc, 0, 4, x, y);
  }

  /** The related list never shows the match itself. */
  lemma RelatedExcludesSelf(rows: map<nat, Match>, m: Match)
    ensures m !in RelatedMatches(rows, m)
  {
  }

  datatype Detail = Detail(match_: Match, related: seq<Match>, confidenceInfo: ConfidenceInfo)

  /** What the detail page shows for row `m` read from `rows`. */
  function DetailOf(rows: map<nat, Match>, m: Match): Detail {
    Detail(m, RelatedMatches(rows, m), GetConfidenceLabel(m.confidence))
  }

  /** A row found in a keyed table sits under its own id. */
  lemma KeyedValue(rows: map<nat, Match>, nextId: nat, m: Match)
    requires Keyed(rows, nextId) && m in rows.Values
    ensures m.id in rows && rows[m.id] == m
  {
    var k :| k in rows && rows[k] == m;
  }

  /**
   * `getMatchDetail`: 404 before anything is counted; otherwise the related
   * matches are read, then the view counter goes up by one. The page shows
   * the row as it was read, before the increment.
   */
  method GetMatchDetail(table: MatchTable, slug: string) returns (r: Result<Detail, AppError>)
    requires table.Valid()
    modifies table
    ensures table.Valid() && table.nextId == old(table.nextId)
    ensures FindBySlug(old(table.rows), slug).None? ==> r == Failure(NotFound) && table.rows == old(table.rows)
    ensures FindBySlug(old(table.rows), slug).Some? ==>
      var m := FindBySlug(old(table.rows), slug).value;
      && r == Success(DetailOf(old(table.rows), m))
      && m.id in old(table.rows)
      && table.rows == old(table.rows)[m.id := Viewed(m)]
  {
    var found := FindBySlug(table.rows, slug);
    if found.None? {
      return Failure(NotFound);
    }
    var m := found.value;
    KeyedValue(table.rows, table.nextId, m);
    r := Success(DetailOf(table.rows, m));
    table.IncrementViews(m.id);
  }

  // ---------------------------------------------------------------- search

  /** SQL `LIKE '%q%'`: a substring match that ignores ASCII case. */
  predicate Like(q: string, text: string) {
    IsSubstring(Lower(q), Lower(text))
  }

  /** The `where` clause of the search, over the lower-cased pattern `lq`. */
  function Containing(lq: string): (p: Match -> bool)
    ensures Lower(lq) == lq ==>
      forall m :: p(m) <==> Like(lq, m.home_team) || Like(lq, m.away_team) || Like(lq, m.league)
  {
    (m: Match) => IsSubstring(lq, Lower(m.home_team)) || IsSubstring(lq, Lower(m.away_team)) || IsSubstring(lq, Lower(m.league))
  }

  lemma LowerIdempotent(s: string)
    ensures Lower(Lower(s)) == Lower(s)
  {
  }

  /** `searchMatches`: nothing for a missing or one-character query, else up to ten hits, latest first. */
  function SearchMatches(rows: map<nat, Match>, q: Option<string>): (r: seq<Match>)
    ensures q.None? || |q.value| < 2 ==> r == []
    ensures |r| <= 10
    ensures q.Some? ==> forall m :: m in r ==>
      m in rows.Values && (Like(q.value, m.home_team) || Like(q.value, m.away_team) || Like(q.value, m.league))
    ensures SortedBy(r, Desc)
    ensures q.Some? && |q.value| >= 2 ==>
      var hits := Count(rows, Containing(Lower(q.value)));
      && IsPage(r, rows, Containing(Lower(q.value)), Desc, 0, 10)
      && |r| == if hits <= 10 then hits else 10
  {
    if q.None? || |q.value| < 2 then []
    else
      LowerIdempotent(q.value);
      SearchHits(rows, Lower(q.value))
  }

  /** The search query for the lower-cased pattern `lq`. */
  function SearchHits(rows: map<nat, Match>, lq: string): seq<Match> {
    Query(rows, Containing(lq), Desc, 0, 10)
  }

  /** With at most ten hits, the search lists every one of them. */
  lemma SearchComplete(rows: map<nat, Match>, q: string)
    requires |q| >= 2 && Count(rows, Containing(Lower(q))) <= 10
    ensures multiset(SearchMatches(rows, Some(q))) == multiset(Matching(rows, Containing(Lower(q))))
  {
    assert SearchMatches(rows, Some(q)) == SearchHits(rows, Lower(q));
    QueryFirstPageComplete(rows, Containing(Lower(q)), Desc, 0, 10);
  }

  /** The search shows the latest hits: a hit it leaves out is no later than any it shows. */
  lemma SearchLatest(rows: map<nat, Match>, q: string, x: Match, y: Match)
    requires |q| >= 2 && x in SearchMatches(rows, Some(q))
    requires y in rows.Values && (Like(q, y.home_team) || Like(q, y.away_team) || Like(q, y.league))
    requires y !in SearchMatches(rows, Some(q))
    ensures x.match_date >= y.match_date
  {
    LowerIdempotent(q);
    FirstPageBoundary(SearchMatches(rows, Some(q)), rows, Containing(Lower(q)), Desc, 0, 10, x, y);
  }

  /** The search ignores ASCII case in the query. */
  lemma SearchIgnoresCase(rows: map<nat, Match>, q: string)
    ensures SearchMatches(rows, Some(q)) == SearchMatches(rows, Some(Lower(q)))
  {
    LowerIdempotent(q);
  }
}
