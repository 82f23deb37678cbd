# Match predictions: a verified model of the record lifecycle and listings

The application publishes football match predictions. An administrator does several things through an admin area:

- adds matches (singly or by a bulk JSON import);
- edits a match's content;
- records a result (score and bet outcome), which settles the match;
- deletes a match.

The public pages list upcoming matches, past results with a win rate, a match's detail page with related matches and a view counter, and a search.

This Dafny project models that core:

- **Helpers** (`helpers.dfy`, over `text.dfy`): slug building, input sanitising, win-rate rounding, pagination arithmetic, confidence labels and the "live" window.
- **Validator** (`validator.dfy`): the request validation chains and the gate that either lets a request through or turns it back with every message.
- **Database** (`database.dfy`): the `Match` and `Admin` records and the constraints the store enforces. The Match table is the class `MatchTable`, which maps ids to rows and carries the autoincrement counter.
- **Listing** (`listing.dfy`): the one query shape every listing uses — filter, order by `match_date`, offset, limit.
- **AdminController** (`admin_controller.dfy`): the admin handlers. The bulk import is an imperative loop, proved equal to a recursive specification `ImportAll`.
- **MatchController** (`match_controller.dfy`): the public handlers. `GetMatchDetail` updates the view counter in place.

Inputs from outside the program are parameters of the model:

- **The clock:** `Date.now()` and `moment()` become `now`. The bulk import takes one instant per entry.
- **The date parser:** `new Date(...)` is replaced by the instant it yields.
- **The HTML sanitiser:** the `sanitize-html` library is an arbitrary function `strip`.
- **Validator libraries:** `isISO8601`, `isURL` and the result of `JSON.parse` are parameters.

Among the model's invariants:

- **Keyed:** every row sits under its own id, below the next id.
- **SlugsUnique:** slugs are unique.
- **Settled:** a finished match has a well-formed score and a decided bet.

Each mutating handler is proved to keep them.

Points where the model follows what the code does rather than what one might expect:

- **The `Match` columns.** `database.js` does not declare `home_logo`, `away_logo`, `odds`, `views` or `bet_status`, although the controllers write and read them. The record carries the fields the controllers use, and `bet_status` is `pending` until a result is recorded.
- **Recording a result.** The code records a result from any status, including `finished`, and `UpdateResult` does the same.
- **The view increment.** The code awaits the increment without a guard, and the model has no failure path for it.
- **The settled rule.** The store does not enforce that a finished match has a decided bet. It holds only because the result route runs `validateResult` first, so `UpdateResult` requires the validator to have accepted its form.

## Model

| member | source | states |
|---|---|---|
| `Helpers.CreateSlug` | utils/helpers.js:7-14 | the slug is non-empty, uses only a–z, 0–9 and `-`, never holds `--` and neither starts nor ends with `-` |
| `Helpers.CreateSlugShape` | utils/helpers.js:8-12 | the slug is the normalised `home-vs-away-` stem followed by `prediction-` and the decimal digits of the timestamp |
| `Helpers.CreateSlugDistinctInstants` | utils/helpers.js:8-9 | slugs made at two different instants differ, whatever the team names |
| `Helpers.CreateSlugIgnoresCase` | utils/helpers.js:10 | lower-casing the team names first changes nothing, so case never tells two slugs apart |
| `Helpers.SquashSlugTail` | utils/helpers.js:11 | collapsing runs of other characters into one dash acts separately on a prefix and on a well-formed dash-led tail |
| `Helpers.SanitizeInput` | utils/helpers.js:19-25 | a missing value passes through unchanged; a string comes back as the trimmed sanitiser output, no longer than that output |
| `Text.Trim` | utils/helpers.js:24 | the result has no white space at either end and is a slice of the input with only white space before and after it |
| `Helpers.SanitizePlainText` | utils/helpers.js:21-24 | with a sanitiser that leaves markup-free text alone, sanitising only trims, and trimmed plain text is kept as it is |
| `Helpers.IsMatchLiveWindow` | utils/helpers.js:44-49 | a match is live exactly when now − kick-off lies strictly between −60 000 ms and 121 minutes, because moment truncates the minute difference toward zero |
| `Helpers.TruncDiv` | utils/helpers.js:47 | the whole-minute difference truncates toward zero for negative and positive spans |
| `Helpers.WinRate` | utils/helpers.js:57 | the rounded percentage lies in 0..100 and is the integer nearest 100·won/total (halves up) |
| `Helpers.CalculateWinRate` | utils/helpers.js:54-58 | 0 for an empty list; otherwise the nearest integer to 100·(won rows)/(rows), in 0..100 |
| `Helpers.WinRateExamples` | utils/helpers.js:57 | 3/4 → 75, 1/3 → 33, 2/3 → 67, 1/8 → 13 (rounding the half up), 0/5 → 0, 5/5 → 100 |
| `Helpers.WinRateExtremes` | utils/helpers.js:57 | all won gives 100, none won gives 0 |
| `Helpers.WinRateMonotone` | utils/helpers.js:57 | more wins over the same total never lower the rate |
| `Helpers.Paginate` | utils/helpers.js:63-78 | totalPages is the ceiling of items/perPage; hasPrevPage ⇔ page > 1; hasNextPage ⇔ page < totalPages; nextPage/prevPage are page±1 exactly when those hold, else null |
| `Helpers.PaginateFewestPages` | utils/helpers.js:64 | the page count is the least number of pages that hold every item |
| `Helpers.PaginateNextMeansMoreItems` | utils/helpers.js:65 | there is a next page exactly when some item lies beyond the current page |
| `Helpers.PaginateExample` | utils/helpers.js:63-78 | 45 items at 20 per page: 3 pages, page 1 has a next page and no previous one, page 3 no next page |
| `Helpers.ConfidenceBand` | utils/helpers.js:83-87 | every integer gets exactly one band: ≥85 Very High, 70–84 High, 55–69 Medium, below 55 Low |
| `Helpers.ConfidenceBandMonotone` | utils/helpers.js:83-87 | a higher confidence never gets a lower band |
| `Helpers.GetConfidenceLabel` | utils/helpers.js:83-88 | the label and class of the value's band; a null confidence is labelled Low/danger |
| `Helpers.BandInfoInjective` | utils/helpers.js:84-87 | different bands carry different captions and classes |
| `Text.DecimalDigitsRoundTrip` | utils/helpers.js:9 | the decimal rendering of the timestamp reads back as the same number |
| `Text.JsParseIntOfIntText` | controllers/adminController.js:94 | `parseInt` of integer text yields that integer |
| `Validator.RequiredText` | middleware/validator.js:21-24 | a trimmed required text passes exactly when non-empty and within its maximum length, with at most one message |
| `Validator.MatchErrorsEmptyIffAccepted` | middleware/validator.js:20-59 | `validateMatch` reports nothing exactly when league/home/away are 1..100 characters after trimming, the date is present and ISO 8601, the prediction 1..200, a sent confidence an integer in 1..100, sent logos URLs and a sent analysis at most 5000 characters |
| `Validator.MatchAcceptedHasRequired` | middleware/validator.js:21-47 | an accepted form carries every not-null column, and its confidence parses to a value in 1..100 |
| `Validator.TrimmedMatchForm` | middleware/validator.js:22-42 | the `trim()` steps replace league, teams and prediction by their trimmed text, which has no surrounding spaces, and touch no other field |
| `Validator.AcceptedBetStatus` | middleware/validator.js:77-79 | exactly won, lost, void and push are accepted, and none of them is pending |
| `Validator.ScoreErrors` | middleware/validator.js:72-75 | an empty score reports both messages; no message exactly when the trimmed score matches `^\d+-\d+$` |
| `Validator.ScoreChars` | middleware/validator.js:75 | an accepted score holds only digits and dashes |
| `Validator.ResultErrorsEmptyIffAccepted` | middleware/validator.js:67-79 | `validateResult` reports nothing exactly when the id is integer text, the trimmed score matches the pattern and the bet status is one of the four |
| `Validator.PendingRejected` | middleware/validator.js:79 | a result with bet status `pending` is always refused |
| `Validator.ScoreExamples` | middleware/validator.js:75 | `2-1` and `10-0` match; `2:1`, `-1`, `2-` and `1-2-3` do not |
| `Validator.BulkErrorsEmptyIffAccepted` | middleware/validator.js:87-103 | the bulk payload passes exactly when it is present and parses to an array of at most 50 entries |
| `Validator.SlugErrorsEmptyIffAccepted` | middleware/validator.js:127-131 | the slug parameter passes exactly when its trimmed text is non-empty and only a–z, 0–9 and `-` |
| `Validator.PaginationAcceptedPage` | middleware/validator.js:139-146 | after the pagination rules the handlers' `parseInt(page) \|\| 1` is the sent page, at least 1 |
| `Validator.PaginationErrorsEmptyIffAccepted` | middleware/validator.js:139-146 | `validatePagination` reports nothing exactly when a sent page is integer text of at least 1 and a sent limit integer text in 1..100 |
| `Validator.HandleValidationErrors` | middleware/validator.js:6-15 | the request proceeds exactly when there are no messages; otherwise the flash contains every message |
| `Text.JoinContainsParts` | middleware/validator.js:10-11 | each message appears in the `", "`-joined flash |
| `Database.NullColumns` | database.js:13-25 | lists the not-null columns a draft leaves null; empty exactly when league, home team, away team and prediction are present |
| `Database.CheckInsert` | database.js:12-35 | an insert succeeds exactly when no not-null column is null and the slug is free; otherwise the not-null or unique error; a success has the next id, the slug and the status default `upcoming` |
| `Database.CheckInsertStores` | database.js:12-35 | a stored row holds the draft's values, no result and a pending bet |
| `Database.InsertKeepsInvariants` | database.js:29 | a successful insert keeps every row under its own id and the slugs unique, and adds one row |
| `Database.FindBySlug` | database.js:29 | the lookup by slug finds a row exactly when one has that slug |
| `Database.MatchTable.constructor` | database.js:12 | the table starts empty with the counter at 1 |
| `Database.MatchTable.Create` | database.js:12-35 | a create stores the checked row under the next id and advances the counter; a failed one changes nothing |
| `Database.MatchTable.Save` | controllers/adminController.js:153 | an update writes back one row, keeping ids and slugs unique |
| `Database.MatchTable.Destroy` | controllers/adminController.js:195 | a destroy removes exactly that row |
| `Database.MatchTable.IncrementViews` | controllers/matchController.js:92 | the row's views go up by one and nothing else changes |
| `Database.Viewed` | controllers/matchController.js:92 | one more view changes only the counter |
| `Database.AddAdmin` | database.js:38-41 | an admin insert fails exactly when a non-null username is taken, otherwise appends the row |
| `Database.AddAdminKeepsUnique` | database.js:39 | usernames stay unique after every successful insert |
| `Listing.SortByDate` | controllers/matchController.js:18 | `order: match_date` yields a sorted permutation of its input |
| `Listing.Matching` | controllers/adminController.js:24-25 | the `where` clause keeps exactly the stored rows that satisfy it |
| `Listing.Window` | controllers/adminController.js:13 | `limit`/`offset` take the rows from `offset` on (a negative offset reads as 0), as many as `limit` allows and the input holds |
| `Listing.Query` | controllers/adminController.js:24-29 | a listing is the `offset`/`limit` window of the selected rows sorted by date in the requested direction: a sorted permutation of exactly the stored rows the filter selects, cut to the page length |
| `Listing.FirstPageBoundary` | controllers/matchController.js:16-21 | on a first page, every selected row left out comes after every row shown, in the listing's date order |
| `Listing.QueryPagesOrdered` | controllers/adminController.js:24-29 | every row on an earlier page comes, in the listing's date order, before every row on a later page |
| `Listing.QueryFirstPageComplete` | controllers/matchController.js:16-21 | when every selected row fits on the first page, the page holds exactly those rows |
| `Listing.QueryPagesCoverMatching` | controllers/adminController.js:11-29 | every selected row is on some page ≥ 1 |
| `Listing.WhereCountMonotone` | controllers/matchController.js:108-111 | a stricter filter never counts more rows |
| `Listing.WhereDisjointCount` | controllers/adminController.js:34-37 | two exclusive filters together count no more rows than there are |
| `Listing.RecordsInIdOrder` | controllers/adminController.js:24 | rows are read in ascending id order before sorting |
| `AdminController.GetDashboardStats` | controllers/adminController.js:32-38 | total counts all rows, upcoming and finished the rows of that status, won and lost the rows with that bet status; upcoming + finished and won + lost never exceed total |
| `AdminController.GetDashboard` | controllers/adminController.js:10-50 | the filter defaults to `all` and the page to `parseInt(page) \|\| 1`; the rows are that page, 20 per page, of the filtered rows newest first; pagination is `paginate` of the filtered count |
| `AdminController.DashboardLatestFirst` | controllers/adminController.js:24-29 | the first dashboard page shows the newest filtered rows: one it leaves out is no newer than any it shows |
| `AdminController.DashboardPagesCoverFilter` | controllers/adminController.js:11-29 | every row the filter selects is listed on some dashboard page |
| `AdminController.KeyOf` | controllers/adminController.js:131 | a primary-key lookup finds a key exactly for non-negative integer text, and the key is that integer |
| `AdminController.CreateDraft` | controllers/adminController.js:83-100 | a new match is `upcoming` with 0 views; confidence is the parsed value, or 70 when that is NaN or 0; every text field is sanitised, with empty forms becoming `N/A` and empty logos, analysis, link and odds `''`; the date is the one given; the slug comes from the raw team names |
| `AdminController.ValidatedDraftComplete` | controllers/adminController.js:83-102 | behind `validateMatch` a create can fail only on the unique slug, and the stored confidence lies in 1..100 |
| `AdminController.CreateMatch` | controllers/adminController.js:65-108 | the store's outcome for the draft: the new row under the next id, or the store's error with nothing changed; settledness kept |
| `AdminController.UpdatedRow` | controllers/adminController.js:137-153 | an edit keeps id, slug, status, views, result and bet; sets date and confidence (null when unparsable); replaces every sent content field by its sanitised text and keeps every unsent one |
| `AdminController.UpdatedRowIdempotent` | controllers/adminController.js:137-153 | submitting the same edit twice stores the same row as once |
| `AdminController.UpdatedRowOverwrites` | controllers/adminController.js:137-153 | an edit that sends every content field makes the row independent of its old content |
| `AdminController.UpdateMatch` | controllers/adminController.js:130-159 | 404 with no change for an unknown id; otherwise exactly that row is replaced by the edited row |
| `AdminController.RecordResult` | controllers/adminController.js:173-177 | the row becomes finished with the given score and bet and nothing else changes |
| `AdminController.StoredScore` | controllers/adminController.js:174 | a score reaches the store exactly when one was sent |
| `AdminController.StoredScoreIsScore` | controllers/adminController.js:174 | a validated score survives sanitising unchanged and still matches the pattern |
| `AdminController.UpdateResult` | controllers/adminController.js:164-183 | 404 with no change for an unknown id; otherwise that row, from any status, becomes finished with the score and bet; the table stays settled |
| `AdminController.DeleteMatch` | controllers/adminController.js:188-201 | deletes exactly when the id names a row, removing only that row; otherwise 404 and no change |
| `AdminController.DeleteTwice` | controllers/adminController.js:188-201 | repeating a delete finds nothing the second time |
| `AdminController.BulkDraft` | controllers/adminController.js:228-244 | an imported entry is `upcoming` with 0 views and no link; league is sanitised or `Unknown`; teams, prediction and analysis are sanitised, forms default to `N/A`, logos and odds to `''` unsanitised; confidence is the parsed value or 70; the slug comes from the raw names |
| `AdminController.ImportError` | controllers/adminController.js:247 | each failure line contains the store's error message |
| `AdminController.Record` | controllers/adminController.js:245-248 | recording one entry's outcome adds one to imported + errors |
| `AdminController.ImportStepAccounts` | controllers/adminController.js:226-248 | one entry counts once; an import adds one row under the next id; stored rows stay; ids and slugs stay valid |
| `AdminController.RecordKeepsStore` | controllers/adminController.js:245-248 | recording an insert the store accepted keeps ids and slugs valid and leaves stored rows alone |
| `AdminController.ImportStepSettled` | controllers/adminController.js:228-244 | an entry is stored as `upcoming`, so one iteration keeps a settled table settled |
| `AdminController.ImportAllAccounts` | controllers/adminController.js:223-249 | every entry counts once as imported or as an error; each import adds one row; stored rows stay; ids and slugs stay valid |
| `AdminController.ImportAllSettled` | controllers/adminController.js:226-249 | the whole import keeps a settled table settled |
| `AdminController.ImportEntry` | controllers/adminController.js:227-248 | creating one entry's draft leaves the table and the counters where recording the insert's outcome puts them |
| `AdminController.ProcessBulkImport` | controllers/adminController.js:216-260 | more than 50 entries fail with 400 before any create; otherwise the table and report equal the recursive specification over all entries |
| `AdminController.BulkReportAccounts` | controllers/adminController.js:223-251 | at loop exit imported + errors equals the input length, the table grew by the imported count, and a settled table stays settled |
| `AdminController.BulkFlash` | controllers/adminController.js:253-257 | with errors, the warning contains every error line |
| `AdminController.GetLeaguesList` | controllers/adminController.js:265-284 | sixteen distinct, non-empty league names |
| `MatchController.GetStats` | controllers/matchController.js:107-120 | total counts finished rows, won finished-and-won rows, upcoming upcoming rows; the rate is 0 without finished rows, else the rounded 100·won/total in 0..100 |
| `MatchController.GetStatsExtremes` | controllers/matchController.js:118 | all finished bets won gives 100, none gives 0 |
| `MatchController.GetHomepage` | controllers/matchController.js:11-36 | the rows are page `parseInt(page) \|\| 1`, 20 per page, of the upcoming rows soonest first; pagination is `paginate` of the upcoming count; stats are `getStats` |
| `MatchController.HomepageSoonestFirst` | controllers/matchController.js:16-21 | the first homepage shows the soonest upcoming matches: one it leaves out is no sooner than any it shows |
| `MatchController.HomepageFirstPageComplete` | controllers/matchController.js:12-21 | with at most 20 upcoming matches the first page lists all of them |
| `MatchController.GetResults` | controllers/matchController.js:41-64 | the rows are page `parseInt(page) \|\| 1`, 20 per page, of the finished rows latest first; pagination is `paginate` of the finished count; the win rate is that of the page's rows only |
| `MatchController.ResultsLatestFirst` | controllers/matchController.js:46-51 | the first results page shows the latest finished matches: one it leaves out is no later than any it shows |
| `MatchController.ResultsPastLastPage` | controllers/matchController.js:46-54 | a page past the last is empty and its win rate 0 |
| `MatchController.RelatedMatches` | controllers/matchController.js:81-89 | the first four, soonest first, of the stored upcoming rows of the same league with another id, or all of them when there are fewer |
| `MatchController.RelatedSoonest` | controllers/matchController.js:81-89 | a candidate left out of the related list is no sooner than any shown |
| `MatchController.RelatedExcludesSelf` | controllers/matchController.js:84 | the related list never shows the match itself |
| `MatchController.GetMatchDetail` | controllers/matchController.js:69-102 | an unknown slug gives 404 with no view counted; otherwise the page shows the row as read, with its related matches and label, and exactly that row's views go up by one |
| `MatchController.Containing` | controllers/matchController.js:133-139 | a row matches when the pattern occurs, ignoring ASCII case, in home team, away team or league |
| `MatchController.SearchMatches` | controllers/matchController.js:125-145 | a missing or one-character query gives nothing; otherwise the first ten, latest first, of the stored rows whose home team, away team or league contains the query ignoring ASCII case, or all of them when there are fewer |
| `MatchController.SearchLatest` | controllers/matchController.js:132-142 | a hit left out of the search is no later than any shown |
| `MatchController.SearchComplete` | controllers/matchController.js:132-142 | with at most ten hits the search lists every one of them |
| `MatchController.SearchIgnoresCase` | controllers/matchController.js:135-137 | the search gives the same rows for a query and its lower-cased form |

## Left out

- Rendering, flash storage, redirects, logging and the JSON response envelope are out of scope: a handler returns the value it would render or the error it would raise.
- Authentication, sessions, rate limiting, the Express wiring and the error-handling middleware are out of scope. `AppError` is a result value.
- `formatDate`, `timeFromNow` and `isValidUrl` only delegate to moment and the `URL` constructor. `isISO8601` and `isURL` are parameters.
- `sequelize.sync()` and the SQLite file are I/O. Every handler runs to completion before the next one starts.
- Helpers.SanitizeInput: the sanitising library is the parameter `strip`. Only its trimming and its pass-through of non-strings are modelled. Where a property needs more, it assumes `KeepsPlainText`: text without markup characters is left alone.
- Helpers.WinRate: models exact rational rounding. The source computes `won / total * 100` in binary floating point, which can differ at exact halves.
- Helpers.Paginate: requires `perPage > 0`. A zero `perPage` would give `Infinity` pages in JavaScript, and every caller passes 20.
- Text.JsParseInt: reads optional spaces, a sign and a decimal digit prefix. It leaves out hexadecimal `0x` prefixes and non-ASCII white space.
- Text.Lower: lower-cases ASCII only. JavaScript's `toLowerCase` handles all of Unicode, and lengths are counted in characters, not UTF-16 units.
- Search: SQL `LIKE` is modelled as an ASCII case-insensitive substring test. `%` and `_` inside the query act as wildcards in SQLite and are not modelled.
- `new Date(...)` is foreign. The handlers receive the instant it yields, so an invalid date, and the bulk import's unreachable `|| new Date()` fallback, are not modelled.
- AdminController.DbMessage approximates the ORM's error texts; the import only carries them into its error lines.
- Bulk import entries are objects whose fields are text or absent. Other JSON values in a field and a `null` entry, which makes the handler throw, are not modelled.
- AdminController.KeyOf: `findByPk` with an id surrounded by white space, or with text SQLite's numeric affinity reads as an integer such as `5.0` or `1e1`, finds row 5 or 10 in SQLite; the model reads only plain integer text and answers 404 for the rest.
- AdminController.UpdateResult: requires `ResultErrors(f) == []`, the guarantee of the `validateResult` chain the result route runs first. Without that chain an unknown bet status would reach the store.
- Listing.Query: the page is the window of some date-sorted arrangement of the selected rows. Which of several rows with equal `match_date` comes first is not fixed, because the database fixes no such order.
- `validateLogin` and the admin login check are not part of this model.
