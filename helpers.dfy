/**
 * The helpers of utils/helpers.js the application's logic depends on: the
 * slug built from the team names and the clock, the win-rate percentage, the
 * pagination record, the confidence band, the "live" window and the
 * sanitizer's pass-through of non-strings. The clock (`Date.now()`,
 * `moment()`) is a parameter; `Math.round` and `Math.ceil` are written as
 * integer formulas.
 */
module Helpers {
  import opened Wrappers
  import opened Text
  import opened Database
  import opened Listing

  // ---------------------------------------------------------------- slugs

  predicate IsAlnum(c: char) {
    'a' <= c <= 'z' || IsDigit(c)
  }

  predicate NoDoubleDash(s: string) {
    forall i :: 0 < i < |s| ==> !(s[i - 1] == '-' && s[i] == '-')
  }

  predicate AllSlugChars(s: string) {
    forall i :: 0 <= i < |s| ==> IsSlugChar(s[i])
  }

  /**
   * `replace(/[^a-z0-9]+/g, '-')`: every maximal run of characters outside
   * `[a-z0-9]` becomes one `-`. Defined character by character from the left:
   * a character outside the class extends the run the output already ends in.
   */
  function Squash(s: string): (r: string)
    ensures |r| <= |s|
    ensures AllSlugChars(r) && NoDoubleDash(r)
    ensures s != [] ==> r != [] && (r[|r| - 1] == '-' <==> !IsAlnum(s[|s| - 1]))
    ensures s != [] && IsAlnum(s[|s| - 1]) ==> r[|r| - 1] == s[|s| - 1]
    decreases |s|
  {
    if s == [] then []
    else
      var p := Squash(s[..|s| - 1]);
      var c := s[|s| - 1];
      if IsAlnum(c) then p + [c]
      else if p != [] && p[|p| - 1] == '-' then p
      else p + ['-']
  }

  /**
   * Squashing text followed by a well-formed tail `-x-y…` (slug characters, no
   * `--`) squashes the text with its separator and keeps the rest of the tail.
   */
  lemma {:induction false} SquashSlugTail(x: string, y: string)
    requires y != [] && y[0] == '-' && AllSlugChars(y) && NoDoubleDash(y)
    ensures Squash(x + y) == Squash(x + "-") + y[1..]
    decreases |y|
  {
    if |y| > 1 {
      var y' := y[..|y| - 1];
      var c := y[|y| - 1];
      SliceKeepsSlugForm(y, 0, |y| - 1);
      SquashSlugTail(x, y');
      assert IsSlugChar(c) && (IsAlnum(c) || IsAlnum(y'[|y'| - 1])) by {
        if !IsAlnum(c) {
          assert y[|y| - 2] != '-' && IsSlugChar(y[|y| - 2]);
        }
      }
      SquashTailStep(x, y', c);
      assert y == y' + [c];
    } else {
      assert y == "-";
    }
  }

  /** The inductive step of `SquashSlugTail`: one more slug character of the tail. */
  lemma SquashTailStep(x: string, y: string, c: char)
    requires y != [] && Squash(x + y) == Squash(x + "-") + y[1..]
    requires IsSlugChar(c) && (IsAlnum(c) || IsAlnum(y[|y| - 1]))
    ensures Squash(x + (y + [c])) == Squash(x + "-") + (y + [c])[1..]
  {
    SnocRegroup(x, y, c, Squash(x + "-"));
    SquashAppendSlugChar(x + y, c);
  }

  /** Regrouping a concatenation that grows by one element at the end. */
  lemma SnocRegroup<T>(x: seq<T>, y: seq<T>, c: T, s: seq<T>)
    requires y != []
    ensures x + (y + [c]) == (x + y) + [c]
    ensures (x + y)[|x + y| - 1] == y[|y| - 1]
    ensures s + (y + [c])[1..] == (s + y[1..]) + [c]
  {
    assert (y + [c])[1..] == y[1..] + [c];
  }

  lemma SquashSnoc(s: string, c: char)
    ensures var p := Squash(s);
      Squash(s + [c]) == if IsAlnum(c) then p + [c] else if p != [] && p[|p| - 1] == '-' then p else p + ['-']
  {
    assert (s + [c])[..|s + [c]| - 1] == s;
  }

  /** A slug character after an alphanumeric one, or an alphanumeric character, is kept as it is. */
  lemma SquashAppendSlugChar(s: string, c: char)
    requires IsSlugChar(c)
    requires IsAlnum(c) || (s != [] && IsAlnum(s[|s| - 1]))
    ensures Squash(s + [c]) == Squash(s) + [c]
  {
    SquashSnoc(s, c);
  }

  /** `replace(/^-+/, '')`. */
  function DropLeadingDashes(s: string): (r: string)
    ensures |r| <= |s| && r == s[|s| - |r|..]
    ensures r == [] || r[0] != '-'
    ensures forall i :: 0 <= i < |s| - |r| ==> s[i] == '-'
  {
    if s != [] && s[0] == '-' then DropLeadingDashes(s[1..]) else s
  }

  /** `replace(/-+$/, '')`. */
  function DropTrailingDashes(s: string): (r: string)
    ensures |r| <= |s| && r == s[..|r|]
    ensures r == [] || r[|r| - 1] != '-'
    ensures forall i :: |r| <= i < |s| ==> s[i] == '-'
  {
    if s != [] && s[|s| - 1] == '-' then DropTrailingDashes(s[..|s| - 1]) else s
  }

  lemma {:induction false} DropLeadingDashesAppend(p: string, t: string)
    requires t != [] && t[0] != '-'
    ensures DropLeadingDashes(p + t) == DropLeadingDashes(p) + t
    decreases |p|
  {
    if p != [] {
      assert (p + t)[1..] == p[1..] + t;
      if p[0] == '-' {
        DropLeadingDashesAppend(p[1..], t);
      }
    }
  }

  /** Any slice of text made of slug characters without `--` is again such text. */
  lemma SliceKeepsSlugForm(s: string, i: nat, j: nat)
    requires i <= j <= |s| && AllSlugChars(s) && NoDoubleDash(s)
    ensures AllSlugChars(s[i..j]) && NoDoubleDash(s[i..j])
  {
    var t := s[i..j];
    assert forall k :: 0 <= k < |t| ==> t[k] == s[i + k];
  }

  /** Squashing and then dropping the outer dashes leaves slug text with no dash at either end. */
  lemma TrimmedSquashForm(s: string)
    ensures var r := DropTrailingDashes(DropLeadingDashes(Squash(s)));
      AllSlugChars(r) && NoDoubleDash(r) && (r == [] || (r[0] != '-' && r[|r| - 1] != '-'))
  {
    var squashed := Squash(s);
    var lead := DropLeadingDashes(squashed);
    var r := DropTrailingDashes(lead);
    SliceKeepsSlugForm(squashed, |squashed| - |lead|, |squashed|);
    SliceKeepsSlugForm(lead, 0, |r|);
    assert r == [] || r[0] == lead[0];
  }

  /** The slug of `homeTeam`, `awayTeam` at instant `now` (`Date.now()`). */
  function CreateSlug(homeTeam: string, awayTeam: string, now: nat): (r: string)
    ensures r != []
    ensures AllSlugChars(r) && NoDoubleDash(r)
    ensures r[0] != '-' && r[|r| - 1] != '-'
  {
    SlugTimeTail(homeTeam, awayTeam, now);
    TrimmedSquashForm(Lower(SlugSource(homeTeam, awayTeam, now)));
    DropTrailingDashes(DropLeadingDashes(Squash(Lower(SlugSource(homeTeam, awayTeam, now)))))
  }

  /** The template `${homeTeam}-vs-${awayTeam}-prediction-${timestamp}`. */
  function SlugSource(homeTeam: string, awayTeam: string, now: nat): string {
    homeTeam + "-vs-" + awayTeam + "-prediction-" + DecimalDigits(now)
  }

  /** The part of the slug that comes from the team names: empty, or ending in `-`. */
  function SlugStem(homeTeam: string, awayTeam: string): (r: string)
    ensures r == [] || (r[0] != '-' && r[|r| - 1] == '-')
  {
    DropLeadingDashes(Squash(Lower(homeTeam + "-vs-" + awayTeam) + "-"))
  }

  lemma PredictionTailWellFormed(now: nat)
    ensures var y := "-prediction-" + DecimalDigits(now);
      y[0] == '-' && AllSlugChars(y) && NoDoubleDash(y) && Lower(y) == y
  {
    var y := "-prediction-" + DecimalDigits(now);
    assert forall i :: 12 <= i < |y| ==> IsDigit(y[i]);
  }

  lemma LowerSlugSource(homeTeam: string, awayTeam: string, now: nat)
    ensures Lower(SlugSource(homeTeam, awayTeam, now))
      == Lower(homeTeam + "-vs-" + awayTeam) + ("-prediction-" + DecimalDigits(now))
  {
    var y := "-prediction-" + DecimalDigits(now);
    PredictionTailWellFormed(now);
    assert SlugSource(homeTeam, awayTeam, now) == (homeTeam + "-vs-" + awayTeam) + y;
    LowerAppend(homeTeam + "-vs-" + awayTeam, y);
  }

  lemma SquashSlugSource(homeTeam: string, awayTeam: string, now: nat)
    ensures Squash(Lower(SlugSource(homeTeam, awayTeam, now)))
      == Squash(Lower(homeTeam + "-vs-" + awayTeam) + "-") + ("prediction-" + DecimalDigits(now))
  {
    var y := "-prediction-" + DecimalDigits(now);
    assert y[1..] == "prediction-" + DecimalDigits(now);
    LowerSlugSource(homeTeam, awayTeam, now);
    PredictionTailWellFormed(now);
    SquashSlugTail(Lower(homeTeam + "-vs-" + awayTeam), y);
  }

  /** Text that does not end in a dash keeps its end. */
  lemma DropTrailingKeeps(s: string)
    requires s != [] && s[|s| - 1] != '-'
    ensures DropTrailingDashes(s) == s
  {
  }

  lemma TrimDashesAppend(p: string, t: string)
    requires t != [] && t[0] != '-' && t[|t| - 1] != '-'
    ensures DropTrailingDashes(DropLeadingDashes(p + t)) == DropLeadingDashes(p) + t
  {
    DropLeadingDashesAppend(p, t);
    var whole := DropLeadingDashes(p) + t;
    assert whole[|whole| - 1] == t[|t| - 1];
    DropTrailingKeeps(whole);
  }

  /** The slug is the stem followed by `prediction-` and the digits of the timestamp. */
  lemma SlugTimeTail(homeTeam: string, awayTeam: string, now: nat)
    ensures var slug := DropTrailingDashes(DropLeadingDashes(Squash(Lower(SlugSource(homeTeam, awayTeam, now)))));
      slug == SlugStem(homeTeam, awayTeam) + ("prediction-" + DecimalDigits(now))
  {
    var digits := DecimalDigits(now);
    var t := "prediction-" + digits;
    var squashed := Squash(Lower(homeTeam + "-vs-" + awayTeam) + "-");
    assert t != [] && t[0] != '-' && t[|t| - 1] != '-' by {
      assert t[|t| - 1] == digits[|digits| - 1];
      assert IsDigit(digits[|digits| - 1]);
    }
    assert Squash(Lower(SlugSource(homeTeam, awayTeam, now))) == squashed + t by {
      SquashSlugSource(homeTeam, awayTeam, now);
    }
    TrimDashesAppend(squashed, t);
  }

  lemma CreateSlugShape(homeTeam: string, awayTeam: string, now: nat)
    ensures CreateSlug(homeTeam, awayTeam, now) == SlugStem(homeTeam, awayTeam) + ("prediction-" + DecimalDigits(now))
  {
    SlugTimeTail(homeTeam, awayTeam, now);
  }

  /** Slugs made at two different instants differ, whatever the team names. */
  lemma CreateSlugDistinctInstants(homeTeam: string, awayTeam: string, a: nat, b: nat)
    requires a != b
    ensures CreateSlug(homeTeam, awayTeam, a) != CreateSlug(homeTeam, awayTeam, b)
  {
    var stem := SlugStem(homeTeam, awayTeam);
    var k := |stem| + |"prediction-"|;
    assert CreateSlug(homeTeam, awayTeam, a)[k..] == DecimalDigits(a) by {
      CreateSlugShape(homeTeam, awayTeam, a);
      TailAfter(stem, "prediction-", DecimalDigits(a));
    }
    assert CreateSlug(homeTeam, awayTeam, b)[k..] == DecimalDigits(b) by {
      CreateSlugShape(homeTeam, awayTeam, b);
      TailAfter(stem, "prediction-", DecimalDigits(b));
    }
    DecimalDigitsInjective(a, b);
  }

  lemma TailAfter(s: string, m: string, t: string)
    ensures |s| + |m| <= |s + (m + t)| && (s + (m + t))[|s| + |m|..] == t
  {
  }

  /** Team names that differ only in letter case give the same slug at the same instant. */
  lemma CreateSlugIgnoresCase(homeTeam: string, awayTeam: string, now: nat)
    ensures CreateSlug(homeTeam, awayTeam, now) == CreateSlug(Lower(homeTeam), Lower(awayTeam), now)
  {
    LowerAppend(homeTeam, "-vs-");
    LowerAppend(homeTeam + "-vs-", awayTeam);
    LowerAppend(Lower(homeTeam), "-vs-");
    LowerAppend(Lower(homeTeam) + "-vs-", Lower(awayTeam));
    assert Lower("-vs-") == "-vs-";
    assert Lower(Lower(homeTeam)) == Lower(homeTeam);
    assert Lower(Lower(awayTeam)) == Lower(awayTeam);
    CreateSlugShape(homeTeam, awayTeam, now);
    CreateSlugShape(Lower(homeTeam), Lower(awayTeam), now);
  }

  // ------------------------------------------------------------ sanitizer

  /** The HTML-significant characters an allow-nothing sanitizer acts on. */
  predicate PlainText(s: string) {
    forall i :: 0 <= i < |s| ==> s[i] != '<' && s[i] != '>' && s[i] != '&' && s[i] != '"'
  }

  /** The sanitizing library leaves text without markup characters as it is. */
  ghost predicate KeepsPlainText(strip: string -> string) {
    forall s :: PlainText(s) ==> strip(s) == s
  }

  /**
   * `sanitizeInput`: a string goes through the sanitizing library `strip` and is
   * trimmed; anything else, here `undefined`, comes back unchanged.
   */
  function SanitizeInput(strip: string -> string, input: Option<string>): (r: Option<string>)
    ensures input.None? ==> r.None?
    ensures input.Some? ==> r.Some? && NoSpaceAtEnds(r.value) && |r.value| <= |strip(input.value)|
    ensures input.Some? ==> r == Some(Trim(strip(input.value)))
  {
    if input.None? then None else Some(Trim(strip(input.value)))
  }

  /** On plain text the sanitizer only trims; in particular it keeps trimmed plain text as it is. */
  lemma SanitizePlainText(strip: string -> string, s: string)
    requires KeepsPlainText(strip) && PlainText(s)
    ensures SanitizeInput(strip, Some(s)) == Some(Trim(s))
    ensures NoSpaceAtEnds(s) ==> SanitizeInput(strip, Some(s)) == Some(s)
  {
    if NoSpaceAtEnds(s) {
      TrimKeeps(s);
    }
  }

  // ------------------------------------------------------------- win rate

  /** `Math.round((won / total) * 100)` on exact rationals; 0 for no matches. */
  function WinRate(won: nat, total: nat): (r: nat)
    requires won <= total
    ensures r <= 100
    ensures total == 0 ==> r == 0
    ensures total > 0 ==> (2 * r - 1) * total <= 200 * won < (2 * r + 1) * total
  {
    if total == 0 then 0
    else
      var r := (200 * won + total) / (2 * total);
      RoundedQuotient(200 * won + total, 2 * total);
      assert 200 * won + total < 2 * total * 101 by {
        assert 200 * won <= 200 * total;
      }
      DivBelow(200 * won + total, 2 * total, 101);
      r
  }

  lemma RoundedQuotient(a: nat, b: nat)
    requires b > 0
    ensures b * (a / b) <= a < b * (a / b) + b
  {
  }

  lemma DivBelow(a: nat, b: nat, k: nat)
    requires b > 0 && a < b * k
    ensures a / b < k
  {
    if a / b >= k {
      assert b * (a / b) >= b * k;
      RoundedQuotient(a, b);
    }
  }

  lemma MulStrict(a: int, b: int, t: int)
    requires t > 0
    ensures a < b ==> a * t < b * t
  {
    if a < b {
      assert b * t - a * t == (b - a) * t;
    }
  }

  lemma MulMono(a: int, b: int, t: int)
    requires t > 0 && a <= b
    ensures a * t <= b * t
  {
    assert b * t - a * t == (b - a) * t;
  }

  lemma MulCancelStrict(a: int, b: int, t: int)
    requires t > 0
    ensures a * t < b * t ==> a < b
  {
    if a >= b {
      assert a * t - b * t == (a - b) * t;
    }
  }

  predicate IsWon(m: Match) {
    m.bet_status == Won
  }

  function WonCount(ms: seq<Match>): (n: nat)
    ensures n <= |ms|
  {
    |Where(ms, IsWon)|
  }

  /** `calculateWinRate`: the rounded percentage of `won` bets among `matches`, 0 for none. */
  function CalculateWinRate(matches: seq<Match>): (r: nat)
    ensures r <= 100
    ensures matches == [] ==> r == 0
    ensures matches != [] ==>
      (2 * r - 1) * |matches| <= 200 * WonCount(matches) < (2 * r + 1) * |matches|
  {
    if |matches| == 0 then 0 else WinRate(WonCount(matches), |matches|)
  }

  lemma WinRateExamples()
    ensures WinRate(3, 4) == 75 && WinRate(1, 3) == 33 && WinRate(2, 3) == 67
    ensures WinRate(1, 8) == 13 && WinRate(0, 5) == 0 && WinRate(5, 5) == 100
  {
  }

  /** All bets won gives 100, none won gives 0. */
  lemma WinRateExtremes(total: nat)
    requires total > 0
    ensures WinRate(total, total) == 100 && WinRate(0, total) == 0
  {
    var r := WinRate(total, total);
    MulStrict(200, 2 * r - 1, total);
    MulStrict(2 * r + 1, 200, total);
    var z := WinRate(0, total);
    MulStrict(0, 2 * (z as int) - 1, total);
  }

  /** More wins over the same total never lower the rate. */
  lemma WinRateMonotone(a: nat, b: nat, total: nat)
    requires a <= b <= total
    ensures WinRate(a, total) <= WinRate(b, total)
  {
    if total > 0 {
      var ra := WinRate(a, total);
      var rb := WinRate(b, total);
      MulCancelStrict(2 * (ra as int) - 1, 2 * rb + 1, total);
    }
  }

  // ----------------------------------------------------------- pagination

  datatype Pagination = Pagination(
    totalItems: nat,
    totalPages: nat,
    currentPage: int,
    perPage: nat,
    hasNextPage: bool,
    hasPrevPage: bool,
    nextPage: Option<int>,
    prevPage: Option<int>)

  /** `paginate(totalItems, currentPage, perPage)` with `Math.ceil` on exact rationals. */
  function Paginate(totalItems: nat, currentPage: int, perPage: nat): (r: Pagination)
    requires perPage > 0
    ensures r.totalItems == totalItems && r.currentPage == currentPage && r.perPage == perPage
    ensures totalItems <= r.totalPages * perPage
    ensures r.totalPages == 0 || (r.totalPages - 1) * perPage < totalItems
    ensures r.hasNextPage <==> currentPage < r.totalPages
    ensures r.hasPrevPage <==> currentPage > 1
    ensures r.nextPage.Some? <==> r.hasNextPage
    ensures r.nextPage.Some? ==> r.nextPage.value == currentPage + 1
    ensures r.prevPage.Some? <==> r.hasPrevPage
    ensures r.prevPage.Some? ==> r.prevPage.value == currentPage - 1
  {
    var totalPages := (totalItems + perPage - 1) / perPage;
    RoundedQuotient(totalItems + perPage - 1, perPage);
    var hasNext := currentPage < totalPages;
    var hasPrev := currentPage > 1;
    Pagination(totalItems, totalPages, currentPage, perPage, hasNext, hasPrev,
      if hasNext then Some(currentPage + 1) else None,
      if hasPrev then Some(currentPage - 1) else None)
  }

  /** The page count is the least number of pages that hold every item. */
  lemma PaginateFewestPages(totalItems: nat, perPage: nat, pages: nat)
    requires perPage > 0 && totalItems <= pages * perPage
    ensures Paginate(totalItems, 1, perPage).totalPages <= pages
  {
    var t := Paginate(totalItems, 1, perPage).totalPages;
    MulCancelStrict(t as int - 1, pages, perPage);
  }

  /** There is a next page exactly when some item lies beyond the current one. */
  lemma PaginateNextMeansMoreItems(totalItems: nat, currentPage: int, perPage: nat)
    requires perPage > 0 && currentPage >= 1
    ensures Paginate(totalItems, currentPage, perPage).hasNextPage <==> currentPage * perPage < totalItems
  {
    var t := Paginate(totalItems, currentPage, perPage).totalPages;
    if currentPage < t {
      MulMono(currentPage, t - 1, perPage);
    } else {
      MulMono(t, currentPage, perPage);
    }
  }

  lemma PaginateExample()
    ensures var p := Paginate(45, 1, 20); p.totalPages == 3 && !p.hasPrevPage && p.hasNextPage && p.nextPage == Some(2)
    ensures var p := Paginate(45, 3, 20); !p.hasNextPage && p.nextPage.None? && p.prevPage == Some(2)
    ensures Paginate(0, 1, 20).totalPages == 0
  {
  }

  // ----------------------------------------------------------- confidence

  datatype Band = VeryHigh | High | Medium | Low

  datatype ConfidenceInfo = ConfidenceInfo(caption: string, cssClass: string)

  /** The band of a confidence value: exactly one band per integer. */
  function ConfidenceBand(confidence: int): (b: Band)
    ensures b == VeryHigh <==> confidence >= 85
    ensures b == High <==> 70 <= confidence < 85
    ensures b == Medium <==> 55 <= confidence < 70
    ensures b == Low <==> confidence < 55
  {
    if confidence >= 85 then VeryHigh
    else if confidence >= 70 then High
    else if confidence >= 55 then Medium
    else Low
  }

  function BandRank(b: Band): nat {
    match b
    case Low => 0
    case Medium => 1
    case High => 2
    case VeryHigh => 3
  }

  /** A higher confidence never gets a lower band. */
  lemma ConfidenceBandMonotone(a: int, b: int)
    requires a <= b
    ensures BandRank(ConfidenceBand(a)) <= BandRank(ConfidenceBand(b))
  {
  }

  function BandInfo(b: Band): (r: ConfidenceInfo) {
    match b
    case VeryHigh => ConfidenceInfo("Very High", "success")
    case High => ConfidenceInfo("High", "primary")
    case Medium => ConfidenceInfo("Medium", "warning")
    case Low => ConfidenceInfo("Low", "danger")
  }

  /**
   * `getConfidenceLabel`; a null confidence compares as 0 in JavaScript's
   * relational operators, so it is labelled Low.
   */
  function GetConfidenceLabel(confidence: Option<int>): (r: ConfidenceInfo)
    ensures confidence.None? ==> r == ConfidenceInfo("Low", "danger")
    ensures confidence.Some? ==> r == BandInfo(ConfidenceBand(confidence.value))
  {
    BandInfo(ConfidenceBand(if confidence.Some? then confidence.value else 0))
  }

  /** Different bands carry different captions and different classes. */
  lemma BandInfoInjective(a: Band, b: Band)
    requires a != b
    ensures BandInfo(a).caption != BandInfo(b).caption && BandInfo(a).cssClass != BandInfo(b).cssClass
  {
  }

  // ------------------------------------------------------------ live window

  /** Integer division truncating toward zero, as moment's `diff` does for whole units. */
  function TruncDiv(a: int, b: nat): (q: int)
    requires b > 0
    ensures a >= 0 ==> q >= 0 && q * b <= a < (q + 1) * b
    ensures a < 0 ==> q <= 0 && (q - 1) * b < a <= q * b
  {
    if a >= 0 then
      QuotientBounds(a, b);
      a / b
    else
      var n := -a;
      QuotientBounds(n, b);
      NegatedBounds(n / b, b);
      -(n / b)
  }

  lemma QuotientBounds(n: nat, b: nat)
    requires b > 0
    ensures n / b >= 0 && (n / b) * b <= n < (n / b + 1) * b
  {
    var q := n / b;
    assert n == b * q + n % b;
    assert (q + 1) * b == q * b + b;
  }

  lemma NegatedBounds(q: int, b: nat)
    ensures (-q - 1) * b == -((q + 1) * b) && (-q) * b == -(q * b)
  {
  }

  const MinuteMs: nat := 60000

  /** `isMatchLive`: the whole minutes since kick-off (`now - matchDate`) lie in 0..120. */
  function IsMatchLive(matchDate: int, now: int): bool {
    var diffMinutes := TruncDiv(now - matchDate, MinuteMs);
    0 <= diffMinutes <= 120
  }

  /**
   * In milliseconds: from just under one minute before kick-off (truncation
   * reads -59 999 ms as 0 minutes) up to but excluding 121 minutes after.
   */
  lemma IsMatchLiveWindow(matchDate: int, now: int)
    ensures IsMatchLive(matchDate, now) <==> -60000 < now - matchDate < 121 * 60000
  {
    var d := now - matchDate;
    var q := TruncDiv(d, MinuteMs);
    if d < 0 && d > -60000 {
      assert q == 0;
    }
    if d >= 121 * 60000 {
      assert q * 60000 > 120 * 60000;
    }
  }
}
