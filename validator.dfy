/**
 * The request validation chains of middleware/validator.js, as functions from
 * the raw request fields to the list of failure messages, in the order the
 * chains report them. A chain without `bail()` runs all its validators, so one
 * field can contribute two messages. `optional()` skips a field that is
 * absent; any other validator reads an absent field as the empty string.
 * `isISO8601`, `isURL` and `JSON.parse` belong to foreign libraries and are
 * parameters.
 */
module Validator {
  import opened Wrappers
  import opened Text
  import opened Database

  /** The string a validator sees for a field; `None` is a missing field. */
  function Field(x: Option<string>): string {
    if x.Some? then x.value else ""
  }

  /** One validator of a chain: its message when it fails. */
  function Check(fails: bool, msg: string): (r: seq<string>)
    ensures fails <==> r == [msg]
    ensures !fails <==> r == []
  {
    if fails then [msg] else []
  }

  /** `isInt({ min: lo, max: hi })`. */
  predicate IsIntIn(s: string, lo: int, hi: int) {
    IsIntText(s) && lo <= IntTextValue(s) <= hi
  }

  // ------------------------------------------------------------ match form

  /** The body of the add and edit forms; `None` is a field the form did not send. */
  datatype MatchForm = MatchForm(
    league: Option<string>,
    home_team: Option<string>,
    away_team: Option<string>,
    match_date: Option<string>,
    home_logo: Option<string>,
    away_logo: Option<string>,
    home_form: Option<string>,
    away_form: Option<string>,
    analysis: Option<string>,
    prediction: Option<string>,
    confidence: Option<string>,
    affiliate_link: Option<string>,
    odds: Option<string>)

  /** `trim().notEmpty().isLength({ max })` on one field. */
  function RequiredText(x: Option<string>, max: nat, missing: string, tooLong: string): (r: seq<string>)
    ensures r == [] <==> 0 < |Trim(Field(x))| <= max
    ensures |r| <= 1
  {
    Check(Trim(Field(x)) == "", missing) + Check(|Trim(Field(x))| > max, tooLong)
  }

  /** `validateMatch`. */
  function MatchErrors(f: MatchForm, isISO8601: string -> bool, isURL: string -> bool): seq<string> {
    RequiredText(f.league, 100, "League is required", "League name too long")
    + RequiredText(f.home_team, 100, "Home team is required", "Home team name too long")
    + RequiredText(f.away_team, 100, "Away team is required", "Away team name too long")
    + Check(Field(f.match_date) == "", "Match date is required")
    + Check(!isISO8601(Field(f.match_date)), "Invalid date format")
    + RequiredText(f.prediction, 200, "Prediction is required", "Prediction too long")
    + Check(f.confidence.Some? && !IsIntIn(f.confidence.value, 1, 100), "Confidence must be between 1 and 100")
    + Check(f.home_logo.Some? && !isURL(f.home_logo.value), "Invalid home logo URL")
    + Check(f.away_logo.Some? && !isURL(f.away_logo.value), "Invalid away logo URL")
    + Check(f.analysis.Some? && |f.analysis.value| > 5000, "Analysis too long")
  }

  /** What a form that passes `validateMatch` satisfies, rule by rule. */
  predicate MatchAccepted(f: MatchForm, isISO8601: string -> bool, isURL: string -> bool) {
    && 0 < |Trim(Field(f.league))| <= 100
    && 0 < |Trim(Field(f.home_team))| <= 100
    && 0 < |Trim(Field(f.away_team))| <= 100
    && f.match_date.Some? && f.match_date.value != "" && isISO8601(f.match_date.value)
    && 0 < |Trim(Field(f.prediction))| <= 200
    && (f.confidence.Some? ==> IsIntIn(f.confidence.value, 1, 100))
    && (f.home_logo.Some? ==> isURL(f.home_logo.value))
    && (f.away_logo.Some? ==> isURL(f.away_logo.value))
    && (f.analysis.Some? ==> |f.analysis.value| <= 5000)
  }

  lemma MatchErrorsEmptyIffAccepted(f: MatchForm, isISO8601: string -> bool, isURL: string -> bool)
    ensures MatchErrors(f, isISO8601, isURL) == [] <==> MatchAccepted(f, isISO8601, isURL)
  {
  }

  /** A form that passes carries every column the store requires. */
  lemma MatchAcceptedHasRequired(f: MatchForm, isISO8601: string -> bool, isURL: string -> bool)
    requires MatchErrors(f, isISO8601, isURL) == []
    ensures f.league.Some? && f.home_team.Some? && f.away_team.Some? && f.prediction.Some?
    ensures f.confidence.Some? ==> JsParseInt(f.confidence) == Some(IntTextValue(f.confidence.value))
    ensures f.confidence.Some? ==> 1 <= IntTextValue(f.confidence.value) <= 100
  {
    MatchErrorsEmptyIffAccepted(f, isISO8601, isURL);
    if f.confidence.Some? {
      JsParseIntOfIntText(f.confidence.value);
    }
  }

  /**
   * The form as the handler receives it: the `trim()` steps of the chains
   * rewrite `league`, `home_team`, `away_team` and `prediction` in place.
   */
  function TrimmedMatchForm(f: MatchForm): (r: MatchForm)
    ensures r.league.Some? == f.league.Some? && r.home_team.Some? == f.home_team.Some?
    ensures r.away_team.Some? == f.away_team.Some? && r.prediction.Some? == f.prediction.Some?
    ensures r.league.Some? ==> NoSpaceAtEnds(r.league.value)
    ensures r.home_team.Some? ==> NoSpaceAtEnds(r.home_team.value)
    ensures r.away_team.Some? ==> NoSpaceAtEnds(r.away_team.value)
    ensures r.prediction.Some? ==> NoSpaceAtEnds(r.prediction.value)
    ensures r.league == TrimOpt(f.league) && r.home_team == TrimOpt(f.home_team)
    ensures r.away_team == TrimOpt(f.away_team) && r.prediction == TrimOpt(f.prediction)
    ensures r.(league := f.league, home_team := f.home_team, away_team := f.away_team, prediction := f.prediction) == f
  {
    f.(league := TrimOpt(f.league), home_team := TrimOpt(f.home_team),
       away_team := TrimOpt(f.away_team), prediction := TrimOpt(f.prediction))
  }

  function TrimOpt(x: Option<string>): (r: Option<string>)
    ensures r.Some? == x.Some?
    ensures r.Some? ==> NoSpaceAtEnds(r.value) && r.value == Trim(x.value)
  {
    if x.Some? then Some(Trim(x.value)) else None
  }

  // ----------------------------------------------------------- result form

  datatype ResultForm = ResultForm(match_id: Option<string>, result_score: Option<string>, bet_status: Option<string>)

  /** `^\d+-\d+$`: two runs of decimal digits around one dash. */
  predicate IsScore(s: string) {
    exists k :: 0 < k < |s| - 1 && s[k] == '-' && AllDigits(s[..k]) && AllDigits(s[k + 1..])
  }

  /** A score consists of digits and the one dash. */
  lemma ScoreChars(s: string)
    requires IsScore(s)
    ensures forall i :: 0 <= i < |s| ==> IsDigit(s[i]) || s[i] == '-'
  {
    var k :| 0 < k < |s| - 1 && s[k] == '-' && AllDigits(s[..k]) && AllDigits(s[k + 1..]);
    forall i | 0 <= i < |s|
      ensures IsDigit(s[i]) || s[i] == '-'
    {
      if i < k {
        assert s[..k][i] == s[i];
      } else if i > k {
        assert s[k + 1..][i - k - 1] == s[i];
      }
    }
  }

  /** The four bet outcomes `isIn` accepts; `pending` is not among them. */
  function AcceptedBetStatus(s: string): (r: Option<BetStatus>)
    ensures r.Some? ==> r.value != Pending
    ensures r.Some? <==> s in {"won", "lost", "void", "push"}
  {
    if s == "won" then Some(Won)
    else if s == "lost" then Some(Lost)
    else if s == "void" then Some(Void)
    else if s == "push" then Some(Push)
    else None
  }

  /** The `result_score` chain: trimmed, then required, then the score pattern. */
  function ScoreErrors(score: Option<string>): (r: seq<string>)
    ensures Trim(Field(score)) == "" ==> r == ["Result score is required", "Score must be in format X-X"]
    ensures r == [] <==> IsScore(Trim(Field(score)))
  {
    Check(Trim(Field(score)) == "", "Result score is required")
    + Check(!IsScore(Trim(Field(score))), "Score must be in format X-X")
  }

  /** `validateResult`. */
  function ResultErrors(f: ResultForm): seq<string> {
    Check(Field(f.match_id) == "", "Match ID is required")
    + Check(!IsIntText(Field(f.match_id)), "Invalid match ID")
    + ScoreErrors(f.result_score)
    + Check(Field(f.bet_status) == "", "Bet status is required")
    + Check(AcceptedBetStatus(Field(f.bet_status)).None?, "Invalid bet status")
  }

  lemma ResultErrorsEmptyIffAccepted(f: ResultForm)
    ensures ResultErrors(f) == [] <==>
      && f.match_id.Some? && IsIntText(f.match_id.value)
      && f.result_score.Some? && IsScore(Trim(f.result_score.value))
      && f.bet_status.Some? && AcceptedBetStatus(f.bet_status.value).Some?
  {
  }

  /** `pending` is always rejected as a result's bet status. */
  lemma PendingRejected(f: ResultForm)
    requires f.bet_status == Some("pending")
    ensures ResultErrors(f) != []
  {
    ResultErrorsEmptyIffAccepted(f);
  }

  lemma ScoreExamples()
    ensures IsScore("2-1") && IsScore("10-0")
    ensures !IsScore("2:1") && !IsScore("-1") && !IsScore("2-") && !IsScore("1-2-3")
  {
    assert "2-1"[..1] == "2" && "2-1"[2..] == "1";
    assert "10-0"[..2] == "10" && "10-0"[3..] == "0";
    assert !IsDigit("1-2-3"[1]) && !IsDigit("1-2-3"[3]);
  }

  // ----------------------------------------------------------- bulk import

  /** The outcome of `JSON.parse` on the payload. */
  datatype Parsed<T> = SyntaxError(message: string) | NotArray | ArrayOf(items: seq<T>)

  const MaxBulkImport: nat := 50

  /** `validateBulkImport`: the custom validator reports every failure under "Invalid JSON format: ". */
  function BulkErrors<T>(jsonData: Option<string>, parsed: Parsed<T>): seq<string> {
    Check(Field(jsonData) == "", "JSON data is required")
    + match parsed
      case SyntaxError(m) => ["Invalid JSON format: " + m]
      case NotArray => ["Invalid JSON format: Data must be an array"]
      case ArrayOf(items) =>
        Check(|items| > MaxBulkImport, "Invalid JSON format: Maximum 50 matches per import")
  }

  lemma BulkErrorsEmptyIffAccepted<T>(jsonData: Option<string>, parsed: Parsed<T>)
    ensures BulkErrors(jsonData, parsed) == [] <==>
      jsonData.Some? && jsonData.value != "" && parsed.ArrayOf? && |parsed.items| <= 50
  {
  }

  // ------------------------------------------------------------------ slug

  predicate IsSlugText(s: string) {
    s != [] && forall i :: 0 <= i < |s| ==> IsSlugChar(s[i])
  }

  /** `validateSlug`: the trimmed parameter must match `^[a-z0-9-]+$`. */
  function SlugErrors(slug: Option<string>): seq<string> {
    Check(Trim(Field(slug)) == "", "Slug is required")
    + Check(!IsSlugText(Trim(Field(slug))), "Invalid slug format")
  }

  lemma SlugErrorsEmptyIffAccepted(slug: Option<string>)
    ensures SlugErrors(slug) == [] <==> slug.Some? && IsSlugText(Trim(slug.value))
  {
  }

  // ------------------------------------------------------------ pagination

  /** `validatePagination`. */
  function PaginationErrors(page: Option<string>, limit: Option<string>): seq<string> {
    Check(page.Some? && !(IsIntText(page.value) && IntTextValue(page.value) >= 1), "Invalid page number")
    + Check(limit.Some? && !IsIntIn(limit.value, 1, 100), "Limit must be between 1 and 100")
  }

  /** What a query that passes `validatePagination` satisfies. */
  predicate PaginationAccepted(page: Option<string>, limit: Option<string>) {
    && (page.Some? ==> IsIntText(page.value) && IntTextValue(page.value) >= 1)
    && (limit.Some? ==> IsIntIn(limit.value, 1, 100))
  }

  lemma PaginationErrorsEmptyIffAccepted(page: Option<string>, limit: Option<string>)
    ensures PaginationErrors(page, limit) == [] <==> PaginationAccepted(page, limit)
  {
  }

  /** After the pagination rules, `parseInt(page) || 1` is a page number of at least 1. */
  lemma PaginationAcceptedPage(page: Option<string>, limit: Option<string>)
    requires PaginationErrors(page, limit) == []
    ensures IntOr(JsParseInt(page), 1) >= 1
    ensures page.Some? ==> IntOr(JsParseInt(page), 1) == IntTextValue(page.value)
  {
    if page.Some? {
      JsParseIntOfIntText(page.value);
    }
  }

  // ---------------------------------------------------------------- gate

  /** What `handleValidationErrors` does with the collected messages. */
  datatype Gate = Proceed | Redirect(flash: string)

  function HandleValidationErrors(errors: seq<string>): (r: Gate)
    ensures r.Proceed? <==> errors == []
    ensures r.Redirect? ==> forall i :: 0 <= i < |errors| ==> IsSubstring(errors[i], r.flash)
  {
    if errors == [] then Proceed
    else
      var flash := Join(errors, ", ");
      forall i | 0 <= i < |errors|
        ensures IsSubstring(errors[i], flash)
      {
        JoinContainsParts(errors, ", ", i);
      }
      Redirect(flash)
  }
}
