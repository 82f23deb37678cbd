/**
 * The admin handlers of controllers/adminController.js over the Match table:
 * the dashboard query, creating, editing, settling and deleting a match, the
 * bulk import loop and the league list. Request bodies arrive as the
 * validation chains leave them; `new Date(...)` is foreign and each handler
 * receives the instant it yields; `Date.now()` is a parameter; the HTML
 * sanitizer is the function `strip`. Rendering, flash storage and redirects are
 * not modelled: a handler returns the value it would show or the error it
 * would raise.
 */
module AdminController {
  import opened Wrappers
  import opened Text
  import opened Database
  import opened Listing
  import opened Helpers
  import opened Validator

  /** `AppError`: 404 for a missing row, 400 for a refused request, or the store's own error. */
  datatype AppError = NotFound | BadRequest(message: string) | StoreError(error: DbError)

  /** `x || d` on a string: `undefined` and the empty string are falsy. */
  function OrText(x: Option<string>, d: string): (r: string)
    ensures x.Some? && x.value != "" ==> r == x.value
    ensures x.None? || x.value == "" ==> r == d
  {
    if x.Some? && x.value != "" then x.value else d
  }

  /** A value in a template literal: `undefined` prints as the word. */
  function Show(x: Option<string>): (r: string)
    ensures x.Some? ==> r == x.value
  {
    if x.Some? then x.value else "undefined"
  }

  /** The primary-key lookup `findByPk(text)`: the integer column matches integer text only. */
  function KeyOf(x: Option<string>): (r: Option<nat>)
    ensures r.Some? ==> x.Some? && IsIntText(x.value) && IntTextValue(x.value) == r.value
    ensures x.Some? && IsIntText(x.value) && IntTextValue(x.value) >= 0 ==> r == Some(IntTextValue(x.value) as nat)
  {
    if x.Some? && IsIntText(x.value) && IntTextValue(x.value) >= 0 then Some(IntTextValue(x.value) as nat) else None
  }

  /** A settled row: once finished, a row has a well-formed score and a decided bet. */
  predicate SettledRow(m: Match) {
    m.status == Finished ==> m.result_score.Some? && IsScore(m.result_score.value) && m.bet_status != Pending
  }

  ghost predicate Settled(rows: map<nat, Match>) {
    forall k :: k in rows ==> SettledRow(rows[k])
  }

  /** Writing a settled row (in particular any row that is not finished) keeps the table settled. */
  lemma SettledWrite(rows: map<nat, Match>, k: nat, m: Match)
    requires Settled(rows) && SettledRow(m)
    ensures Settled(rows[k := m])
  {
  }

  lemma SettledRemove(rows: map<nat, Match>, k: nat)
    requires Settled(rows)
    ensures Settled(rows - {k})
  {
  }

  lemma SettledWriteIf(rows: map<nat, Match>, k: nat, m: Match)
    ensures Settled(rows) && SettledRow(m) ==> Settled(rows[k := m])
  {
    if Settled(rows) && SettledRow(m) {
      SettledWrite(rows, k, m);
    }
  }

  lemma SettledRemoveIf(rows: map<nat, Match>, k: nat)
    ensures Settled(rows) ==> Settled(rows - {k})
  {
    if Settled(rows) {
      SettledRemove(rows, k);
    }
  }

  // -------------------------------------------------------------- dashboard

  const PageSize: nat := 20

  datatype DashboardStats = DashboardStats(total: nat, upcoming: nat, finished: nat, won: nat, lost: nat)

  datatype Dashboard = Dashboard(matches: seq<Match>, stats: DashboardStats, pagination: Pagination, filter: string)

  /** The `where` clause for a filter value: only the two known values restrict the rows. */
  function DashboardFilter(filter: string): (p: Match -> bool)
    ensures filter == "upcoming" ==> p == IsUpcoming
    ensures filter == "finished" ==> p == IsFinished
    ensures filter != "upcoming" && filter != "finished" ==> p == AnyMatch
  {
    if filter == "upcoming" then IsUpcoming
    else if filter == "finished" then IsFinished
    else AnyMatch
  }

  predicate IsWonBet(m: Match) {
    m.bet_status == Won
  }

  predicate IsLostBet(m: Match) {
    m.bet_status == Lost
  }

  /** The dashboard counters; won and lost count bets of any status. */
  function GetDashboardStats(rows: map<nat, Match>): (r: DashboardStats)
    ensures r.total == |rows|
    ensures r.upcoming == Count(rows, IsUpcoming) && r.finished == Count(rows, IsFinished)
    ensures r.won == Count(rows, IsWonBet) && r.lost == Count(rows, IsLostBet)
    ensures r.upcoming + r.finished <= r.total
    ensures r.won + r.lost <= r.total
  {
    WhereDisjointCount(Records(rows), IsUpcoming, IsFinished);
    WhereDisjointCount(Records(rows), IsWonBet, IsLostBet);
    DashboardStats(|rows|, Count(rows, IsUpcoming), Count(rows, IsFinished),
      Count(rows, IsWonBet), Count(rows, IsLostBet))
  }

  /** `getDashboard`: 20 rows per page, newest first, filtered by `filter` (default 'all'). */
  function GetDashboard(rows: map<nat, Match>, page: Option<string>, filter: Option<string>): (r: Dashboard)
    ensures r.filter == OrText(filter, "all")
    ensures var pageNo := IntOr(JsParseInt(page), 1);
      && IsPage(r.matches, rows, DashboardFilter(r.filter), Desc, (pageNo - 1) * 20, 20)
      && |r.matches| == PageLength(|Matching(rows, DashboardFilter(r.filter))|, (pageNo - 1) * 20, 20)
      && r.pagination == Paginate(|Matching(rows, DashboardFilter(r.filter))|, pageNo, 20)
    ensures forall m :: m in r.matches ==> m in rows.Values
    ensures r.filter == "upcoming" ==> forall m :: m in r.matches ==> m.status == Upcoming
    ensures r.filter == "finished" ==> forall m :: m in r.matches ==> m.status == Finished
    ensures SortedBy(r.matches, Desc)
    ensures r.stats == GetDashboardStats(rows)
  {
    var pageNo := IntOr(JsParseInt(page), 1);
    var f := OrText(filter, "all");
    var p := DashboardFilter(f);
    var matches := Query(rows, p, Desc, (pageNo - 1) * PageSize, PageSize);
    Dashboard(matches, GetDashboardStats(rows), Paginate(|Matching(rows, p)|, pageNo, PageSize), f)
  }

  /** With no page requested, no filtered row left off the dashboard is newer than one shown. */
  lemma DashboardLatestFirst(rows: map<nat, Match>, filter: Option<string>, x: Match, m: Match)
    requires x in GetDashboard(rows, None, filter).matches
    requires m in rows.Values && DashboardFilter(OrText(filter, "all"))(m)
    requires m !in GetDashboard(rows, None, filter).matches
    ensures x.match_date >= m.match_date
  {
    assert IntOr(JsParseInt(None), 1) == 1;
    FirstPageBoundary(GetDashboard(rows, None, filter).matches, rows, DashboardFilter(OrText(filter, "all")), Desc, 0, 20, x, m);
  }

  /** The dashboard's rows are page `page` of the filtered rows: every such row is on some page. */
  lemma DashboardPagesCoverFilter(rows: map<nat, Match>, filter: string, m: Match)
    requires m in rows.Values && DashboardFilter(filter)(m)
    ensures exists page :: page >= 1 && OnPage(rows, DashboardFilter(filter), Desc, 20, page, m)
  {
    QueryPagesCoverMatching(rows, DashboardFilter(filter), Desc, 20, m);
  }

  // --------------------------------------------------------------- create

  /** The values `createMatch` hands to `Match.create`. */
  function CreateDraft(strip: string -> string, body: MatchForm, matchDate: int, now: nat): (d: Draft)
    ensures d.status == Some(Upcoming) && d.views == 0
    ensures d.confidence.Some? && d.confidence.value != 0
    ensures JsParseInt(body.confidence).Some? && JsParseInt(body.confidence).value != 0 ==> d.confidence == JsParseInt(body.confidence)
    ensures JsParseInt(body.confidence).None? || JsParseInt(body.confidence).value == 0 ==> d.confidence == Some(70)
    ensures d.home_form.Some? && d.home_form.value != "" && d.away_form.Some? && d.away_form.value != ""
    ensures d.home_form == Some(OrText(SanitizeInput(strip, body.home_form), "N/A"))
    ensures d.away_form == Some(OrText(SanitizeInput(strip, body.away_form), "N/A"))
    ensures d.home_logo == Some(OrText(SanitizeInput(strip, body.home_logo), ""))
    ensures d.away_logo == Some(OrText(SanitizeInput(strip, body.away_logo), ""))
    ensures d.analysis == Some(OrText(SanitizeInput(strip, body.analysis), ""))
    ensures d.affiliate_link == Some(OrText(SanitizeInput(strip, body.affiliate_link), ""))
    ensures d.odds == Some(OrText(SanitizeInput(strip, body.odds), ""))
    ensures d.league == SanitizeInput(strip, body.league) && d.prediction == SanitizeInput(strip, body.prediction)
    ensures d.home_team == SanitizeInput(strip, body.home_team) && d.away_team == SanitizeInput(strip, body.away_team)
    ensures d.slug == CreateSlug(Show(body.home_team), Show(body.away_team), now)
    ensures d.match_date == matchDate
  {
    Draft(
      SanitizeInput(strip, body.league),
      SanitizeInput(strip, body.home_team),
      SanitizeInput(strip, body.away_team),
      matchDate,
      Some(OrText(SanitizeInput(strip, body.home_logo), "")),
      Some(OrText(SanitizeInput(strip, body.away_logo), "")),
      Some(OrText(SanitizeInput(strip, body.home_form), "N/A")),
      Some(OrText(SanitizeInput(strip, body.away_form), "N/A")),
      Some(OrText(SanitizeInput(strip, body.analysis), "")),
      SanitizeInput(strip, body.prediction),
      Some(IntOr(JsParseInt(body.confidence), 70)),
      CreateSlug(Show(body.home_team), Show(body.away_team), now),
      Some(OrText(SanitizeInput(strip, body.affiliate_link), "")),
      Some(OrText(SanitizeInput(strip, body.odds), "")),
      Some(Upcoming),
      0)
  }

  /**
   * Behind `validateMatch` a create can only fail on the unique slug, and the
   * stored confidence lies in 1..100.
   */
  lemma ValidatedDraftComplete(strip: string -> string, f: MatchForm, isISO8601: string -> bool, isURL: string -> bool, matchDate: int, now: nat)
    requires MatchErrors(f, isISO8601, isURL) == []
    ensures var d := CreateDraft(strip, TrimmedMatchForm(f), matchDate, now);
      && NullColumns(d) == []
      && 1 <= d.confidence.value <= 100
  {
    MatchAcceptedHasRequired(f, isISO8601, isURL);
  }

  /** `createMatch`. */
  method CreateMatch(table: MatchTable, strip: string -> string, body: MatchForm, matchDate: int, now: nat)
    returns (r: Result<Match, AppError>)
    requires table.Valid()
    modifies table
    ensures table.Valid()
    ensures var d := CreateDraft(strip, body, matchDate, now);
      match CheckInsert(old(table.rows), old(table.nextId), d)
      case Success(m) => r == Success(m) && table.rows == old(table.rows)[m.id := m] && table.nextId == old(table.nextId) + 1
      case Failure(e) => r == Failure(StoreError(e)) && table.rows == old(table.rows) && table.nextId == old(table.nextId)
    ensures Settled(old(table.rows)) ==> Settled(table.rows)
  {
    ghost var before := table.rows;
    var created := table.Create(CreateDraft(strip, body, matchDate, now));
    if created.Success? {
      SettledWriteIf(before, created.value.id, created.value);
      r := Success(created.value);
    } else {
      r := Failure(StoreError(created.error));
    }
  }

  // --------------------------------------------------------------- update

  /** `instance.update` leaves a column alone when the new value is `undefined`. */
  function Keep<T>(x: Option<T>, old_: T): (r: T)
    ensures x.Some? ==> r == x.value
    ensures x.None? ==> r == old_
  {
    if x.Some? then x.value else old_
  }

  function KeepOpt<T>(x: Option<T>, old_: Option<T>): (r: Option<T>)
    ensures x.Some? ==> r == x
    ensures x.None? ==> r == old_
  {
    if x.Some? then x else old_
  }

  /** The row `updateMatch` writes back. */
  function UpdatedRow(m: Match, strip: string -> string, body: MatchForm, matchDate: int): (r: Match)
    ensures r.id == m.id && r.slug == m.slug && r.status == m.status && r.views == m.views
    ensures r.result_score == m.result_score && r.bet_status == m.bet_status
    ensures r.match_date == matchDate && r.confidence == JsParseInt(body.confidence)
    ensures body.league.Some? ==> Some(r.league) == SanitizeInput(strip, body.league)
    ensures body.league.None? ==> r.league == m.league
    ensures body.home_team.Some? ==> Some(r.home_team) == SanitizeInput(strip, body.home_team)
    ensures body.home_team.None? ==> r.home_team == m.home_team
    ensures body.away_team.Some? ==> Some(r.away_team) == SanitizeInput(strip, body.away_team)
    ensures body.away_team.None? ==> r.away_team == m.away_team
    ensures body.prediction.Some? ==> Some(r.prediction) == SanitizeInput(strip, body.prediction)
    ensures body.prediction.None? ==> r.prediction == m.prediction
    ensures body.home_logo.Some? ==> r.home_logo == SanitizeInput(strip, body.home_logo)
    ensures body.home_logo.None? ==> r.home_logo == m.home_logo
    ensures body.away_logo.Some? ==> r.away_logo == SanitizeInput(strip, body.away_logo)
    ensures body.away_logo.None? ==> r.away_logo == m.away_logo
    ensures body.home_form.Some? ==> r.home_form == SanitizeInput(strip, body.home_form)
    ensures body.home_form.None? ==> r.home_form == m.home_form
    ensures body.away_form.Some? ==> r.away_form == SanitizeInput(strip, body.away_form)
    ensures body.away_form.None? ==> r.away_form == m.away_form
    ensures body.analysis.Some? ==> r.analysis == SanitizeInput(strip, body.analysis)
    ensures body.analysis.None? ==> r.analysis == m.analysis
    ensures body.affiliate_link.Some? ==> r.affiliate_link == SanitizeInput(strip, body.affiliate_link)
    ensures body.affiliate_link.None? ==> r.affiliate_link == m.affiliate_link
    ensures body.odds.Some? ==> r.odds == SanitizeInput(strip, body.odds)
    ensures body.odds.None? ==> r.odds == m.odds
  {
    m.(
      league := Keep(SanitizeInput(strip, body.league), m.league),
      home_team := Keep(SanitizeInput(strip, body.home_team), m.home_team),
      away_team := Keep(SanitizeInput(strip, body.away_team), m.away_team),
      match_date := matchDate,
      home_logo := KeepOpt(SanitizeInput(strip, body.home_logo), m.home_logo),
      away_logo := KeepOpt(SanitizeInput(strip, body.away_logo), m.away_logo),
      home_form := KeepOpt(SanitizeInput(strip, body.home_form), m.home_form),
      away_form := KeepOpt(SanitizeInput(strip, body.away_form), m.away_form),
      analysis := KeepOpt(SanitizeInput(strip, body.analysis), m.analysis),
      prediction := Keep(SanitizeInput(strip, body.prediction), m.prediction),
      confidence := JsParseInt(body.confidence),
      affiliate_link := KeepOpt(SanitizeInput(strip, body.affiliate_link), m.affiliate_link),
      odds := KeepOpt(SanitizeInput(strip, body.odds), m.odds))
  }

  /** Submitting the same edit twice stores the same row as submitting it once. */
  lemma UpdatedRowIdempotent(m: Match, strip: string -> string, body: MatchForm, matchDate: int)
    ensures UpdatedRow(UpdatedRow(m, strip, body, matchDate), strip, body, matchDate) == UpdatedRow(m, strip, body, matchDate)
  {
  }

  /** An edit that sends every content field makes the row independent of its old content. */
  lemma UpdatedRowOverwrites(m1: Match, m2: Match, strip: string -> string, body: MatchForm, matchDate: int)
    requires m1.(league := m2.league, home_team := m2.home_team, away_team := m2.away_team, match_date := m2.match_date,
      home_logo := m2.home_logo, away_logo := m2.away_logo, home_form := m2.home_form, away_form := m2.away_form,
      analysis := m2.analysis, prediction := m2.prediction, confidence := m2.confidence,
      affiliate_link := m2.affiliate_link, odds := m2.odds) == m2
    requires body.league.Some? && body.home_team.Some? && body.away_team.Some? && body.prediction.Some?
    requires body.home_logo.Some? && body.away_logo.Some? && body.home_form.Some? && body.away_form.Some?
    requires body.analysis.Some? && body.affiliate_link.Some? && body.odds.Some?
    ensures UpdatedRow(m1, strip, body, matchDate) == UpdatedRow(m2, strip, body, matchDate)
  {
  }

  /** `updateMatch`: 404 for an unknown id; otherwise only the content fields change. */
  method UpdateMatch(table: MatchTable, strip: string -> string, id: Option<string>, body: MatchForm, matchDate: int)
    returns (r: Result<Match, AppError>)
    requires table.Valid()
    modifies table
    ensures table.Valid() && table.nextId == old(table.nextId)
    ensures KeyOf(id).None? || KeyOf(id).value !in old(table.rows) ==> r == Failure(NotFound) && table.rows == old(table.rows)
    ensures KeyOf(id).Some? && KeyOf(id).value in old(table.rows) ==>
      var k := KeyOf(id).value;
      r == Success(UpdatedRow(old(table.rows)[k], strip, body, matchDate))
      && table.rows == old(table.rows)[k := r.value]
    ensures Settled(old(table.rows)) ==> Settled(table.rows)
  {
    var key := KeyOf(id);
    if key.None? || key.value !in table.rows {
      return Failure(NotFound);
    }
    var m := UpdatedRow(table.rows[key.value], strip, body, matchDate);
    SettledWriteIf(table.rows, key.value, m);
    table.Save(m);
    r := Success(m);
  }

  // --------------------------------------------------------------- result

  /** The row `updateResult` writes back: finished, with the score and the bet. */
  function RecordResult(m: Match, score: Option<string>, bet: BetStatus): (r: Match)
    ensures r.status == Finished && r.result_score == score && r.bet_status == bet
    ensures r.(status := m.status, result_score := m.result_score, bet_status := m.bet_status) == m
  {
    m.(status := Finished, result_score := score, bet_status := bet)
  }

  /** The score that reaches the store: the validator trims it, then the sanitizer runs. */
  function StoredScore(strip: string -> string, f: ResultForm): (r: Option<string>)
    ensures f.result_score.Some? <==> r.Some?
  {
    SanitizeInput(strip, if f.result_score.Some? then Some(Trim(f.result_score.value)) else None)
  }

  lemma ScoreIsPlainText(s: string)
    requires IsScore(s)
    ensures PlainText(s)
  {
    ScoreChars(s);
  }

  /** A score that passed validation survives a sanitizer that leaves plain text alone. */
  lemma StoredScoreIsScore(strip: string -> string, f: ResultForm)
    requires ResultErrors(f) == [] && KeepsPlainText(strip)
    ensures StoredScore(strip, f) == Some(Trim(f.result_score.value))
    ensures IsScore(StoredScore(strip, f).value)
  {
    ResultErrorsEmptyIffAccepted(f);
    var t := Trim(f.result_score.value);
    ScoreIsPlainText(t);
    SanitizePlainText(strip, t);
  }

  /**
   * `updateResult`, reached only through `validateResult` (routes/admin.js),
   * so `bet_status` is one of the four accepted values.
   */
  method UpdateResult(table: MatchTable, strip: string -> string, f: ResultForm)
    returns (r: Result<Match, AppError>)
    requires table.Valid()
    requires ResultErrors(f) == []
    modifies table
    ensures table.Valid() && table.nextId == old(table.nextId)
    ensures KeyOf(f.match_id).None? || KeyOf(f.match_id).value !in old(table.rows) ==>
      r == Failure(NotFound) && table.rows == old(table.rows)
    ensures KeyOf(f.match_id).Some? && KeyOf(f.match_id).value in old(table.rows) ==>
      var k := KeyOf(f.match_id).value;
      var bet := AcceptedBetStatus(f.bet_status.value).value;
      r == Success(RecordResult(old(table.rows)[k], StoredScore(strip, f), bet))
      && table.rows == old(table.rows)[k := r.value]
    ensures Settled(old(table.rows)) && KeepsPlainText(strip) ==> Settled(table.rows)
  {
    ResultErrorsEmptyIffAccepted(f);
    var key := KeyOf(f.match_id);
    if key.None? || key.value !in table.rows {
      return Failure(NotFound);
    }
    var bet := AcceptedBetStatus(f.bet_status.value).value;
    var m := RecordResult(table.rows[key.value], StoredScore(strip, f), bet);
    if KeepsPlainText(strip) {
      StoredScoreIsScore(strip, f);
    }
    SettledWriteIf(table.rows, key.value, m);
    table.Save(m);
    r := Success(m);
  }

  // --------------------------------------------------------------- delete

  datatype Outcome = Deleted | Missing

  /** `deleteMatch`: 404 for an unknown id; otherwise exactly that row goes. */
  method DeleteMatch(table: MatchTable, id: Option<string>) returns (r: Outcome)
    requires table.Valid()
    modifies table
    ensures table.Valid() && table.nextId == old(table.nextId)
    ensures r == Deleted <==> KeyOf(id).Some? && KeyOf(id).value in old(table.rows)
    ensures r == Deleted ==> table.rows == old(table.rows) - {KeyOf(id).value}
    ensures r == Missing ==> table.rows == old(table.rows)
    ensures Settled(old(table.rows)) ==> Settled(table.rows)
  {
    var key := KeyOf(id);
    if key.None? || key.value !in table.rows {
      return Missing;
    }
    SettledRemoveIf(table.rows, key.value);
    table.Destroy(key.value);
    r := Deleted;
  }

  /** Deleting the same id twice: the second request finds nothing. */
  method DeleteTwice(table: MatchTable, id: Option<string>) returns (first: Outcome, second: Outcome)
    requires table.Valid()
    modifies table
    ensures second == Missing
    ensures first == Deleted <==> KeyOf(id).Some? && KeyOf(id).value in old(table.rows)
  {
    first := DeleteMatch(table, id);
    second := DeleteMatch(table, id);
  }

  // ----------------------------------------------------------- bulk import

  /** One entry of the parsed import array; `None` is a missing property. */
  datatype BulkItem = BulkItem(
    league: Option<string>,
    home_team: Option<string>,
    away_team: Option<string>,
    home_logo: Option<string>,
    away_logo: Option<string>,
    match_date: int,
    home_form: Option<string>,
    away_form: Option<string>,
    analysis: Option<string>,
    prediction: Option<string>,
    confidence: Option<string>,
    odds: Option<string>)

  /** The values the import loop hands to `Match.create` for one entry at instant `now`. */
  function BulkDraft(strip: string -> string, item: BulkItem, now: nat): (d: Draft)
    ensures d.status == Some(Upcoming) && d.views == 0 && d.affiliate_link.None?
    ensures d.league.Some? && d.league.value != ""
    ensures SanitizeInput(strip, item.league) == Some("") || item.league.None? ==> d.league == Some("Unknown")
    ensures d.home_team == SanitizeInput(strip, item.home_team) && d.away_team == SanitizeInput(strip, item.away_team)
    ensures d.prediction == SanitizeInput(strip, item.prediction)
    ensures d.confidence.Some? && d.confidence.value != 0
    ensures JsParseInt(item.confidence).Some? && JsParseInt(item.confidence).value != 0 ==> d.confidence == JsParseInt(item.confidence)
    ensures JsParseInt(item.confidence).None? || JsParseInt(item.confidence).value == 0 ==> d.confidence == Some(70)
    ensures d.match_date == item.match_date
    ensures d.home_form == Some(OrText(item.home_form, "N/A")) && d.away_form == Some(OrText(item.away_form, "N/A"))
    ensures d.home_logo == Some(OrText(item.home_logo, "")) && d.away_logo == Some(OrText(item.away_logo, ""))
    ensures d.analysis == Some(OrText(SanitizeInput(strip, item.analysis), ""))
    ensures d.odds == Some(OrText(item.odds, ""))
    ensures d.slug == CreateSlug(Show(item.home_team), Show(item.away_team), now)
  {
    Draft(
      Some(OrText(SanitizeInput(strip, item.league), "Unknown")),
      SanitizeInput(strip, item.home_team),
      SanitizeInput(strip, item.away_team),
      item.match_date,
      Some(OrText(item.home_logo, "")),
      Some(OrText(item.away_logo, "")),
      Some(OrText(item.home_form, "N/A")),
      Some(OrText(item.away_form, "N/A")),
      Some(OrText(SanitizeInput(strip, item.analysis), "")),
      SanitizeInput(strip, item.prediction),
      Some(IntOr(JsParseInt(item.confidence), 70)),
      CreateSlug(Show(item.home_team), Show(item.away_team), now),
      None,
      Some(OrText(item.odds, "")),
      Some(Upcoming),
      0)
  }

  /** The store's error text, as the import reports it. */
  function DbMessage(e: DbError): string {
    match e
    case NotNullViolation(columns) => "notNull Violation: " + Join(columns, ", ") + " cannot be null"
    case UniqueViolation(column) => "Validation error: " + column + " must be unique"
  }

  datatype ImportState = ImportState(rows: map<nat, Match>, nextId: nat, imported: nat, errors: seq<string>)

  /** The line an entry that fails adds to `errors`. */
  function ImportError(item: BulkItem, e: DbError): (r: string)
    ensures IsSubstring(DbMessage(e), r)
  {
    var head := Show(item.home_team) + " vs " + Show(item.away_team) + ": ";
    assert (head + DbMessage(e))[|head|..|head| + |DbMessage(e)|] == DbMessage(e);
    assert OccursAt(DbMessage(e), head + DbMessage(e), |head|);
    head + DbMessage(e)
  }

  /** Recording the outcome `c` of one entry's insert: a new row and one more import, or one more error line. */
  function Record(st: ImportState, item: BulkItem, c: Result<Match, DbError>): (r: ImportState)
    ensures r.imported + |r.errors| == st.imported + |st.errors| + 1
  {
    match c
    case Success(m) => ImportState(st.rows[st.nextId := m], st.nextId + 1, st.imported + 1, st.errors)
    case Failure(e) => ImportState(st.rows, st.nextId, st.imported, st.errors + [ImportError(item, e)])
  }

  /** One iteration of the import loop. */
  function ImportStep(st: ImportState, strip: string -> string, item: BulkItem, now: nat): ImportState {
    Record(st, item, CheckInsert(st.rows, st.nextId, BulkDraft(strip, item, now)))
  }

  lemma ImportStepRecords(st: ImportState, strip: string -> string, item: BulkItem, now: nat, c: Result<Match, DbError>)
    requires c == CheckInsert(st.rows, st.nextId, BulkDraft(strip, item, now))
    ensures ImportStep(st, strip, item, now) == Record(st, item, c)
  {
  }

  /** The loop over `items`, entry `i` created at instant `stamps[i]`; a failure does not stop it. */
  function ImportAll(st: ImportState, strip: string -> string, items: seq<BulkItem>, stamps: seq<nat>): ImportState
    requires |stamps| == |items|
    decreases |items|
  {
    if items == [] then st
    else
      var n := |items| - 1;
      ImportStep(ImportAll(st, strip, items[..n], stamps[..n]), strip, items[n], stamps[n])
  }

  /** One iteration accounts for its entry and keeps the store invariants. */
  lemma ImportStepAccounts(st: ImportState, strip: string -> string, item: BulkItem, now: nat)
    requires Keyed(st.rows, st.nextId) && SlugsUnique(st.rows)
    ensures var r := ImportStep(st, strip, item, now);
      && r.imported + |r.errors| == st.imported + |st.errors| + 1
      && r.imported >= st.imported
      && |r.rows| == |st.rows| + (r.imported - st.imported)
      && Keyed(r.rows, r.nextId) && SlugsUnique(r.rows)
      && (forall k :: k in st.rows ==> k in r.rows && r.rows[k] == st.rows[k])
  {
    var d := BulkDraft(strip, item, now);
    var c := CheckInsert(st.rows, st.nextId, d);
    ImportStepRecords(st, strip, item, now, c);
    if c.Success? {
      InsertKeepsInvariants(st.rows, st.nextId, d);
    }
    RecordKeepsStore(st, item, c);
  }

  /** Recording an insert that keeps the store invariants keeps them and accounts for the entry. */
  lemma RecordKeepsStore(st: ImportState, item: BulkItem, c: Result<Match, DbError>)
    requires Keyed(st.rows, st.nextId) && SlugsUnique(st.rows)
    requires c.Success? ==> var rows' := st.rows[st.nextId := c.value];
      Keyed(rows', st.nextId + 1) && SlugsUnique(rows') && |rows'| == |st.rows| + 1
    ensures var r := Record(st, item, c);
      && r.imported >= st.imported
      && |r.rows| == |st.rows| + (r.imported - st.imported)
      && Keyed(r.rows, r.nextId) && SlugsUnique(r.rows)
      && (forall k :: k in st.rows ==> k in r.rows && r.rows[k] == st.rows[k])
  {
    if c.Success? {
      assert st.nextId !in st.rows;
    }
  }

  /** An imported entry is upcoming, so one iteration keeps the table settled. */
  lemma ImportStepSettled(st: ImportState, strip: string -> string, item: BulkItem, now: nat)
    requires Settled(st.rows)
    ensures Settled(ImportStep(st, strip, item, now).rows)
  {
    var c := CheckInsert(st.rows, st.nextId, BulkDraft(strip, item, now));
    ImportStepRecords(st, strip, item, now, c);
    if c.Success? {
      SettledWrite(st.rows, st.nextId, c.value);
    }
  }

  /**
   * Every entry is counted once, as imported or as an error; each import adds
   * exactly one row; rows already stored stay as they were; the store
   * invariants hold throughout.
   */
  lemma {:induction false} ImportAllAccounts(st: ImportState, strip: string -> string, items: seq<BulkItem>, stamps: seq<nat>)
    requires |stamps| == |items|
    requires Keyed(st.rows, st.nextId) && SlugsUnique(st.rows)
    ensures var r := ImportAll(st, strip, items, stamps);
      && r.imported + |r.errors| == st.imported + |st.errors| + |items|
      && r.imported >= st.imported
      && |r.rows| == |st.rows| + (r.imported - st.imported)
      && Keyed(r.rows, r.nextId) && SlugsUnique(r.rows)
      && (forall k :: k in st.rows ==> k in r.rows && r.rows[k] == st.rows[k])
    decreases |items|
  {
    if items != [] {
      var n := |items| - 1;
      ImportAllAccounts(st, strip, items[..n], stamps[..n]);
      var mid := ImportAll(st, strip, items[..n], stamps[..n]);
      ImportStepAccounts(mid, strip, items[n], stamps[n]);
    }
  }

  /** The import adds only upcoming rows, so a settled table stays settled. */
  lemma {:induction false} ImportAllSettled(st: ImportState, strip: string -> string, items: seq<BulkItem>, stamps: seq<nat>)
    requires |stamps| == |items| && Settled(st.rows)
    ensures Settled(ImportAll(st, strip, items, stamps).rows)
    decreases |items|
  {
    if items != [] {
      var n := |items| - 1;
      ImportAllSettled(st, strip, items[..n], stamps[..n]);
      ImportStepSettled(ImportAll(st, strip, items[..n], stamps[..n]), strip, items[n], stamps[n]);
    }
  }

  /** The body of the import loop: try to create the entry's draft `d` and record the outcome. */
  method ImportEntry(table: MatchTable, d: Draft, item: BulkItem, imported: nat, errors: seq<string>)
    returns (imported': nat, errors': seq<string>)
    requires table.Valid()
    modifies table
    ensures table.Valid()
    ensures Record(ImportState(old(table.rows), old(table.nextId), imported, errors), item, CheckInsert(old(table.rows), old(table.nextId), d))
      == ImportState(table.rows, table.nextId, imported', errors')
  {
    var created := table.Create(d);
    if created.Success? {
      imported', errors' := imported + 1, errors;
    } else {
      imported', errors' := imported, errors + [ImportError(item, created.error)];
    }
  }

  lemma ImportAllSnoc(st: ImportState, strip: string -> string, items: seq<BulkItem>, stamps: seq<nat>, i: nat)
    requires |stamps| == |items| && i < |items|
    ensures ImportAll(st, strip, items[..i + 1], stamps[..i + 1])
      == ImportStep(ImportAll(st, strip, items[..i], stamps[..i]), strip, items[i], stamps[i])
  {
    assert items[..i + 1][..i] == items[..i] && stamps[..i + 1][..i] == stamps[..i];
  }

  datatype BulkReport = BulkReport(imported: nat, errors: seq<string>)

  /** The flash message the import ends with. */
  function BulkFlash(report: BulkReport): (r: string)
    ensures report.errors != [] ==> forall i :: 0 <= i < |report.errors| ==> IsSubstring(report.errors[i], r)
  {
    if report.errors != [] then
      var all := Join(report.errors, "; ");
      var head := "Imported " + DecimalDigits(report.imported) + " matches. Errors: ";
      forall i | 0 <= i < |report.errors|
        ensures IsSubstring(report.errors[i], head + all)
      {
        JoinContainsParts(report.errors, "; ", i);
        var k :| 0 <= k <= |all| - |report.errors[i]| && OccursAt(report.errors[i], all, k);
        assert (head + all)[|head| + k..|head| + k + |report.errors[i]|] == all[k..k + |report.errors[i]|];
        assert OccursAt(report.errors[i], head + all, |head| + k);
      }
      head + all
    else "Successfully imported " + DecimalDigits(report.imported) + " matches!"
  }

  /**
   * `processBulkImport` over the parsed array. More than 50 entries are refused
   * before anything is created; otherwise every entry is tried in order.
   */
  method ProcessBulkImport(table: MatchTable, strip: string -> string, items: seq<BulkItem>, stamps: seq<nat>)
    returns (r: Result<BulkReport, AppError>)
    requires table.Valid() && |stamps| == |items|
    modifies table
    ensures table.Valid()
    ensures |items| > 50 ==>
      r == Failure(BadRequest("Maximum 50 matches allowed per import"))
      && table.rows == old(table.rows) && table.nextId == old(table.nextId)
    ensures |items| <= 50 ==>
      var st := ImportAll(ImportState(old(table.rows), old(table.nextId), 0, []), strip, items, stamps);
      && r == Success(BulkReport(st.imported, st.errors))
      && table.rows == st.rows && table.nextId == st.nextId
  {
    if |items| > MaxBulkImport {
      return Failure(BadRequest("Maximum 50 matches allowed per import"));
    }
    ghost var st0 := ImportState(table.rows, table.nextId, 0, []);
    var imported := 0;
    var errors := [];
    for i := 0 to |items|
      invariant table.Valid()
      invariant var st := ImportAll(st0, strip, items[..i], stamps[..i]);
        st.rows == table.rows && st.nextId == table.nextId && st.imported == imported && st.errors == errors
    {
      ImportAllSnoc(st0, strip, items, stamps, i);
      ghost var before := ImportState(table.rows, table.nextId, imported, errors);
      var d := BulkDraft(strip, items[i], stamps[i]);
      ImportStepRecords(before, strip, items[i], stamps[i], CheckInsert(table.rows, table.nextId, d));
      imported, errors := ImportEntry(table, d, items[i], imported, errors);
    }
    assert items[..|items|] == items && stamps[..|stamps|] == stamps;
    r := Success(BulkReport(imported, errors));
  }

  /** The import's report accounts for every entry, and the table grew by the imported count. */
  lemma BulkReportAccounts(rows: map<nat, Match>, nextId: nat, strip: string -> string, items: seq<BulkItem>, stamps: seq<nat>)
    requires |stamps| == |items| && Keyed(rows, nextId) && SlugsUnique(rows)
    ensures var st := ImportAll(ImportState(rows, nextId, 0, []), strip, items, stamps);
      && st.imported + |st.errors| == |items| && |st.rows| == |rows| + st.imported
      && (Settled(rows) ==> Settled(st.rows))
  {
    ImportAllAccounts(ImportState(rows, nextId, 0, []), strip, items, stamps);
    if Settled(rows) {
      ImportAllSettled(ImportState(rows, nextId, 0, []), strip, items, stamps);
    }
  }

  // --------------------------------------------------------------- leagues

  /** `getLeaguesList`: the sixteen leagues offered on the add and edit forms. */
  function GetLeaguesList(): (r: seq<string>)
    ensures |r| == 16
    ensures forall i :: 0 <= i < |r| ==> r[i] != ""
    ensures forall i, j :: 0 <= i < j < |r| ==> r[i] != r[j]
  {
    [ "Premier League", "La Liga", "Serie A", "Bundesliga", "Ligue 1", "Champions League",
      "Europa League", "MLS", "Eredivisie", "Primeira Liga", "Scottish Premiership",
      "Championship", "World Cup", "Euro Championship", "Copa America", "Africa Cup of Nations" ]
  }
}
