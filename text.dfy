/**
 * The JavaScript string and number primitives the application relies on:
 * whitespace trimming, ASCII lower-casing, decimal digits, `parseInt`,
 * `Array.prototype.join` and substring search.
 */
module Text {
  import opened Wrappers

  /** A character of JavaScript's `\s` class (WhiteSpace and LineTerminator), which `trim` removes. */
  predicate IsSpace(c: char) {
    || c == ' ' || c == '\t' || c == '\n' || c == '\r'
    || c == '\U{000B}' || c == '\U{000C}' || c == '\U{00A0}' || c == '\U{1680}'
    || ('\U{2000}' <= c <= '\U{200A}')
    || c == '\U{2028}' || c == '\U{2029}' || c == '\U{202F}' || c == '\U{205F}'
    || c == '\U{3000}' || c == '\U{FEFF}'
  }

  predicate NoSpaceAtEnds(s: string) {
    s == [] || (!IsSpace(s[0]) && !IsSpace(s[|s| - 1]))
  }

  /** `s` is `r` at position `i` with only whitespace around it. */
  predicate Surrounds(s: string, i: int, r: string) {
    && 0 <= i && i + |r| <= |s| && r == s[i..i + |r|]
    && (forall k :: 0 <= k < i ==> IsSpace(s[k]))
    && (forall k :: i + |r| <= k < |s| ==> IsSpace(s[k]))
  }

  /** Drops the leading whitespace of `s`. */
  function TrimStart(s: string): (r: string)
    ensures |r| <= |s| && r == s[|s| - |r|..]
    ensures r == [] || !IsSpace(r[0])
    ensures forall i :: 0 <= i < |s| - |r| ==> IsSpace(s[i])
  {
    if s != [] && IsSpace(s[0]) then TrimStart(s[1..]) else s
  }

  /** Drops the trailing whitespace of `s`. */
  function TrimEnd(s: string): (r: string)
    ensures |r| <= |s| && r == s[..|r|]
    ensures r == [] || !IsSpace(r[|r| - 1])
    ensures forall i :: |r| <= i < |s| ==> IsSpace(s[i])
  {
    if s != [] && IsSpace(s[|s| - 1]) then TrimEnd(s[..|s| - 1]) else s
  }

  /** `String.prototype.trim`, also the `trim()` sanitizer of the validation chains. */
  function Trim(s: string): (r: string)
    ensures NoSpaceAtEnds(r)
    ensures |r| <= |s|
    ensures exists i :: Surrounds(s, i, r)
  {
    TrimSlice(s, TrimStart(s), TrimEnd(TrimStart(s)));
    TrimEnd(TrimStart(s))
  }

  /** Trimming keeps the middle of `s`, from the first to the last non-space character. */
  lemma TrimSlice(s: string, t: string, r: string)
    requires |t| <= |s| && t == s[|s| - |t|..] && forall k :: 0 <= k < |s| - |t| ==> IsSpace(s[k])
    requires |r| <= |t| && r == t[..|r|] && forall k :: |r| <= k < |t| ==> IsSpace(t[k])
    ensures Surrounds(s, |s| - |t|, r)
  {
    var i := |s| - |t|;
    forall k | i + |r| <= k < |s|
      ensures IsSpace(s[k])
    {
      assert s[k] == t[k - i];
    }
  }

  /** A string without surrounding whitespace is its own trim; in particular trimming is idempotent. */
  lemma TrimKeeps(s: string)
    requires NoSpaceAtEnds(s)
    ensures Trim(s) == s
  {
  }

  /** `toLowerCase` on the ASCII letters. */
  function LowerChar(c: char): (r: char)
    ensures 'a' <= r <= 'z' <==> ('a' <= c <= 'z' || 'A' <= c <= 'Z')
    ensures !('A' <= c <= 'Z') ==> r == c
  {
    if 'A' <= c <= 'Z' then (c as int + 32) as char else c
  }

  function Lower(s: string): (r: string)
    ensures |r| == |s| && forall i :: 0 <= i < |s| ==> r[i] == LowerChar(s[i])
  {
    seq(|s|, i requires 0 <= i < |s| => LowerChar(s[i]))
  }

  lemma LowerAppend(a: string, b: string)
    ensures Lower(a + b) == Lower(a) + Lower(b)
  {
    assert forall i :: 0 <= i < |a + b| ==> Lower(a + b)[i] == (Lower(a) + Lower(b))[i];
  }

  predicate IsDigit(c: char) {
    '0' <= c <= '9'
  }

  predicate AllDigits(s: string) {
    forall i :: 0 <= i < |s| ==> IsDigit(s[i])
  }

  /** The characters of the slug alphabet `[a-z0-9-]`. */
  predicate IsSlugChar(c: char) {
    'a' <= c <= 'z' || IsDigit(c) || c == '-'
  }

  function DigitChar(d: nat): (c: char)
    requires d < 10
    ensures IsDigit(c) && c as int - '0' as int == d
  {
    ('0' as int + d) as char
  }

  /** The number a string of decimal digits denotes. */
  function DigitsValue(s: string): nat
    requires AllDigits(s)
    decreases |s|
  {
    if s == [] then 0 else 10 * DigitsValue(s[..|s| - 1]) + (s[|s| - 1] as int - '0' as int)
  }

  /** `String(n)` for a non-negative integer: decimal digits without leading zeros. */
  function DecimalDigits(n: nat): (r: string)
    ensures r != [] && AllDigits(r)
    ensures (r[0] == '0') == (n == 0)
    decreases n
  {
    if n < 10 then [DigitChar(n)] else DecimalDigits(n / 10) + [DigitChar(n % 10)]
  }

  /** Reading back the rendering of `n` gives `n`. */
  lemma {:induction false} DecimalDigitsRoundTrip(n: nat)
    ensures DigitsValue(DecimalDigits(n)) == n
    decreases n
  {
    if n >= 10 {
      var s := DecimalDigits(n);
      assert s[..|s| - 1] == DecimalDigits(n / 10);
      DecimalDigitsRoundTrip(n / 10);
    }
  }

  lemma DecimalDigitsInjective(a: nat, b: nat)
    ensures DecimalDigits(a) == DecimalDigits(b) ==> a == b
  {
    DecimalDigitsRoundTrip(a);
    DecimalDigitsRoundTrip(b);
  }

  /** validator.js `isInt` with its default pattern `^[-+]?[0-9]+$`. */
  predicate IsIntText(s: string) {
    if s != [] && (s[0] == '-' || s[0] == '+') then |s| > 1 && AllDigits(s[1..]) else s != [] && AllDigits(s)
  }

  function IntTextValue(s: string): int
    requires IsIntText(s)
  {
    if s[0] == '-' then -(DigitsValue(s[1..]) as int) else if s[0] == '+' then DigitsValue(s[1..]) else DigitsValue(s)
  }

  /** The longest run of decimal digits at the start of `s`. */
  function DigitPrefix(s: string): (r: string)
    ensures AllDigits(r) && |r| <= |s| && r == s[..|r|]
    ensures |r| < |s| ==> !IsDigit(s[|r|])
  {
    if s != [] && IsDigit(s[0]) then [s[0]] + DigitPrefix(s[1..]) else []
  }

  /**
   * JavaScript `parseInt(x)` in base ten, where `None` is `undefined` on the way in
   * and `NaN` on the way out: leading whitespace and one sign are skipped and the
   * longest digit prefix is read.
   */
  function JsParseInt(x: Option<string>): (r: Option<int>)
  {
    if x.None? then None
    else
      var t := TrimStart(x.value);
      var negative := t != [] && t[0] == '-';
      var body := if t != [] && (t[0] == '-' || t[0] == '+') then t[1..] else t;
      var d := DigitPrefix(body);
      if d == [] then None
      else Some(if negative then -(DigitsValue(d) as int) else DigitsValue(d))
  }

  /** Text that passes `isInt` is read by `parseInt` as exactly the integer `isInt` checked. */
  lemma JsParseIntOfIntText(s: string)
    requires IsIntText(s)
    ensures JsParseInt(Some(s)) == Some(IntTextValue(s))
  {
    assert TrimStart(s) == s by {
      assert !IsSpace(s[0]);
    }
    var body := if s[0] == '-' || s[0] == '+' then s[1..] else s;
    DigitPrefixAll(body);
  }

  /** A string of digits is its own digit prefix. */
  lemma {:induction false} DigitPrefixAll(s: string)
    requires AllDigits(s)
    ensures DigitPrefix(s) == s
    decreases |s|
  {
    if s != [] {
      assert IsDigit(s[0]);
      DigitPrefixAll(s[1..]);
      assert [s[0]] + s[1..] == s;
    }
  }

  /** `x || d` applied to a parse: `NaN` and `0` are falsy. */
  function IntOr(x: Option<int>, d: int): (r: int)
    ensures x.Some? && x.value != 0 ==> r == x.value
    ensures x.None? || x.value == 0 ==> r == d
  {
    if x.Some? && x.value != 0 then x.value else d
  }

  /** `needle` occurs contiguously in `hay` (JavaScript `includes`, SQL `LIKE '%needle%'` without wildcards). */
  predicate IsSubstring(needle: string, hay: string) {
    exists k :: 0 <= k <= |hay| - |needle| && OccursAt(needle, hay, k)
  }

  predicate OccursAt(needle: string, hay: string, k: int) {
    0 <= k <= |hay| - |needle| && hay[k..k + |needle|] == needle
  }

  /** `Array.prototype.join(sep)` over strings. */
  function Join(parts: seq<string>, sep: string): (r: string)
    decreases |parts|
  {
    if parts == [] then "" else if |parts| == 1 then parts[0] else parts[0] + sep + Join(parts[1..], sep)
  }

  /** Every part appears in the joined string. */
  lemma {:induction false} JoinContainsParts(parts: seq<string>, sep: string, i: nat)
    requires i < |parts|
    ensures IsSubstring(parts[i], Join(parts, sep))
    decreases |parts|
  {
    var j := Join(parts, sep);
    if i == 0 {
      assert OccursAt(parts[0], j, 0);
    } else {
      JoinContainsParts(parts[1..], sep, i - 1);
      var rest := Join(parts[1..], sep);
      assert parts[1..][i - 1] == parts[i];
      var k :| 0 <= k <= |rest| - |parts[i]| && OccursAt(parts[i], rest, k);
      var off := |parts[0]| + |sep|;
      assert j == parts[0] + sep + rest;
      assert j[off..] == rest;
      assert j[off + k..off + k + |parts[i]|] == rest[k..k + |parts[i]|];
      assert OccursAt(parts[i], j, off + k);
    }
  }
}
