/**
 * The two kickoff-date formats of the ingestion script: free text of a match detail page,
 * searched with the pattern `(\d{2})\/(\d{2})\/(\d{4}).*?(\d{2}):(\d{2})`, and the compact
 * `dd/mm/yy HH:MM` cell of the regional results table.
 */
module MatchDates {
  import opened Wrappers
  import opened Text
  import opened JsParseInt

  /**
   * A kickoff time: the arguments of `new Date(year, monthIndex, day, hours, minutes)` in
   * local time, or the wall clock `new Date()` read while scraping.
   */
  datatype Timestamp =
    | Local(year: int, month0: int, day: int, hour: int, minute: int)
    | Fallback(now: int)

  /** What fetching a match's detail page gave: no link to follow, a failed fetch, or its text. */
  datatype Detail = NoLink | FetchFailed | Page(text: string)

  /** The characters that `.` in a regular expression does not match. */
  predicate IsLineTerminator(c: char) {
    c == '\n' || c == '\r' || c == '\U{2028}' || c == '\U{2029}'
  }

  /** `s[from..to]` is made of ASCII digits (`\d`). */
  predicate DigitsBetween(s: string, from: int, to: int) {
    0 <= from <= to <= |s| && forall k :: from <= k < to ==> IsDecDigit(s[k])
  }

  /** `(\d{2})\/(\d{2})\/(\d{4})` matches at position `i`. */
  predicate DateAt(s: string, i: int) {
    && 0 <= i && i + 10 <= |s|
    && DigitsBetween(s, i, i + 2) && s[i + 2] == '/'
    && DigitsBetween(s, i + 3, i + 5) && s[i + 5] == '/'
    && DigitsBetween(s, i + 6, i + 10)
  }

  /** `(\d{2}):(\d{2})` matches at position `j`. */
  predicate TimeAt(s: string, j: int) {
    && 0 <= j && j + 5 <= |s|
    && DigitsBetween(s, j, j + 2) && s[j + 2] == ':' && DigitsBetween(s, j + 3, j + 5)
  }

  /** No line terminator in `s[from..to]`, so `.*?` can cross it. */
  predicate SameLine(s: string, from: int, to: int) {
    0 <= from <= to <= |s| && forall k :: from <= k < to ==> !IsLineTerminator(s[k])
  }

  /** The whole pattern matches with the date at `i` and the time at `j`. */
  predicate MatchAt(s: string, i: int, j: int) {
    DateAt(s, i) && TimeAt(s, j) && SameLine(s, i + 10, j)
  }

  /** The lazy `.*?(\d{2}):(\d{2})`: the first time at or after `j` on the same line. */
  function FindTime(s: string, j: nat): (r: Option<nat>)
    requires j <= |s|
    ensures r.Some? ==> TimeAt(s, r.value) && SameLine(s, j, r.value) &&
                        forall k :: j <= k < r.value ==> !TimeAt(s, k)
    ensures r.None? ==> forall k :: SameLine(s, j, k) ==> !TimeAt(s, k)
    decreases |s| - j
  {
    if TimeAt(s, j) then Some(j)
    else if j < |s| && !IsLineTerminator(s[j]) then FindTime(s, j + 1)
    else None
  }

  /**
   * `String.prototype.match` with the date pattern: the leftmost date that a time follows
   * on the same line, paired with the first such time.
   */
  function FindMatch(s: string, i: nat): (r: Option<(nat, nat)>)
    ensures r.Some? ==> i <= r.value.0 && MatchAt(s, r.value.0, r.value.1) &&
                        (forall k :: r.value.0 + 10 <= k < r.value.1 ==> !TimeAt(s, k)) &&
                        (forall p, q :: i <= p < r.value.0 ==> !MatchAt(s, p, q))
    ensures r.None? ==> forall p, q :: i <= p ==> !MatchAt(s, p, q)
    decreases |s| - i
  {
    if i + 10 > |s| then None
    else if DateAt(s, i) then
      match FindTime(s, i + 10)
      case Some(j) => Some((i, j))
      case None => FindMatch(s, i + 1)
    else FindMatch(s, i + 1)
  }

  /**
   * The kickoff of a provincial fixture: the first date-and-time of the detail page's text,
   * read as local time with the month counted from 0; the wall clock when there is no link,
   * the fetch failed or the text holds no such date.
   */
  function TriesteDate(detail: Detail, now: int): (r: Timestamp)
    ensures r.Fallback? <==> !detail.Page? || forall p, q :: !MatchAt(detail.text, p, q)
    ensures r.Fallback? ==> r.now == now
  {
    match detail
    case Page(text) =>
      (match FindMatch(text, 0)
       case Some((i, j)) => Kickoff(text, i, j)
       case None => Fallback(now))
    case _ => Fallback(now)
  }

  /**
   * The five captured groups of a match with the date at `i` and the time at `j`, read by
   * parseInt, as `new Date(year, month - 1, day, hours, minutes)`.
   */
  function Kickoff(text: string, i: nat, j: nat): Timestamp
    requires i + 10 <= |text| && j + 5 <= |text|
  {
    Local(Number(text[i + 6..i + 10]), Number(text[i + 3..i + 5]) - 1, Number(text[i..i + 2]),
          Number(text[j..j + 2]), Number(text[j + 3..j + 5]))
  }

  /** The first match of the pattern decides the kickoff, whatever text surrounds it. */
  lemma TriesteDateIsFirstMatch(text: string, i: nat, j: nat, now: int)
    requires MatchAt(text, i, j)
    requires forall p, q :: 0 <= p < i ==> !MatchAt(text, p, q)
    requires forall k :: i + 10 <= k < j ==> !TimeAt(text, k)
    ensures TriesteDate(Page(text), now) == Kickoff(text, i, j)
  {
    FindMatchIsFirst(text, i, j);
  }

  /** The search finds the leftmost date and the first time after it. */
  lemma FindMatchIsFirst(text: string, i: nat, j: nat)
    requires MatchAt(text, i, j)
    requires forall p, q :: 0 <= p < i ==> !MatchAt(text, p, q)
    requires forall k :: i + 10 <= k < j ==> !TimeAt(text, k)
    ensures FindMatch(text, 0) == Some((i, j))
  {
    var r := FindMatch(text, 0);
    assert r.Some?;
    var (i', j') := r.value;
    assert !(i < i') && !(i' < i);
    assert !(j < j') && !(j' < j);
  }

  /** Text holding no date followed by a time on the same line leaves the wall clock. */
  lemma TriesteDateNoMatch(text: string, now: int)
    requires forall p, q :: !MatchAt(text, p, q)
    ensures TriesteDate(Page(text), now) == Fallback(now)
  {
  }

  /** A `dd/mm/yyyy hh:mm` text and nothing else. */
  predicate IsMinimalDateText(m: string) {
    |m| == 16 && DateAt(m, 0) && m[10] == ' ' && TimeAt(m, 11)
  }

  /** The bare `dd/mm/yyyy hh:mm` reads as its five groups. */
  lemma TriesteDateMinimal(m: string, now: int)
    requires IsMinimalDateText(m)
    ensures TriesteDate(Page(m), now) ==
            Local(Number(m[6..10]), Number(m[3..5]) - 1, Number(m[0..2]), Number(m[11..13]), Number(m[14..16]))
  {
    FirstMatchOfMinimal(m);
  }

  /**
   * A date and time amid other text give the same kickoff as the bare `dd/mm/yyyy hh:mm`,
   * when the text before it starts no match of its own.
   */
  lemma TriesteDateAmidText(pre: string, m: string, post: string, now: int)
    requires IsMinimalDateText(m)
    requires forall p, q :: 0 <= p < |pre| ==> !MatchAt(pre + m + post, p, q)
    ensures TriesteDate(Page(pre + m + post), now) == TriesteDate(Page(m), now)
  {
    FirstMatchInMiddle(pre, m, post);
    FirstMatchOfMinimal(m);
    KickoffOfMiddle(pre, m, post, 0, 11);
  }

  /** The search over the bare date and time finds them. */
  lemma FirstMatchOfMinimal(m: string)
    requires IsMinimalDateText(m)
    ensures FindMatch(m, 0) == Some((0, 11))
  {
    assert !TimeAt(m, 10);
    FindMatchIsFirst(m, 0, 11);
  }

  /** The search over text holding the bare date and time stops at them, unless it stops earlier. */
  lemma FirstMatchInMiddle(pre: string, m: string, post: string)
    requires IsMinimalDateText(m)
    requires forall p, q :: 0 <= p < |pre| ==> !MatchAt(pre + m + post, p, q)
    ensures FindMatch(pre + m + post, 0) == Some((|pre|, |pre| + 11))
  {
    var s := pre + m + post;
    var i := |pre|;
    forall k | i <= k < i + 16 ensures s[k] == m[k - i] {
      assert s[k] == (pre + m)[k];
    }
    assert MatchAt(s, i, i + 11);
    assert !TimeAt(s, i + 10);
    FindMatchIsFirst(s, i, i + 11);
  }

  /** The groups of a match inside the middle part of a concatenation are the middle's own. */
  lemma KickoffOfMiddle(pre: string, m: string, post: string, i: nat, j: nat)
    requires i + 10 <= |m| && j + 5 <= |m|
    ensures Kickoff(pre + m + post, |pre| + i, |pre| + j) == Kickoff(m, i, j)
  {
    SliceOfMiddle(pre, m, post, i + 6, i + 10);
    SliceOfMiddle(pre, m, post, i + 3, i + 5);
    SliceOfMiddle(pre, m, post, i, i + 2);
    SliceOfMiddle(pre, m, post, j, j + 2);
    SliceOfMiddle(pre, m, post, j + 3, j + 5);
  }

  /** A slice of the middle part of a concatenation. */
  lemma SliceOfMiddle(pre: string, m: string, post: string, a: nat, b: nat)
    requires a <= b <= |m|
    ensures (pre + m + post)[|pre| + a..|pre| + b] == m[a..b]
  {
    var s := pre + m + post;
    forall k | |pre| + a <= k < |pre| + b ensures s[k] == m[k - |pre|] {
      assert s[k] == (pre + m)[k];
    }
  }

  /** The year fix of the regional table: a year below 100 is taken as 2000 + yy. */
  function FixYear(year: int): int {
    if year < 100 then year + 2000 else year
  }

  /**
   * `new Date(year, month - 1, day, hours, minutes)` after the two-digit year fix, where
   * `None` is NaN: one NaN argument makes an Invalid Date, here `None`.
   */
  function LocalDate(year: Option<int>, month: Option<int>, day: Option<int>,
                     hour: Option<int>, minute: Option<int>): (r: Option<Timestamp>)
    ensures r.Some? <==> year.Some? && month.Some? && day.Some? && hour.Some? && minute.Some?
    ensures r.Some? ==> r.value.Local? && r.value.month0 == month.value - 1 &&
                        r.value.year == FixYear(year.value)
  {
    if year.Some? && month.Some? && day.Some? && hour.Some? && minute.Some? then
      Some(Local(FixYear(year.value), month.value - 1, day.value, hour.value, minute.value))
    else None
  }

  /** The date pieces `[day, month, year]` and time pieces `[hours, minutes]` read by parseInt. */
  function FvgFields(d: seq<string>, t: seq<string>): (r: Option<Timestamp>)
    ensures r.Some? ==> r.value.Local?
  {
    LocalDate(ParseIntAt(d, 2), ParseIntAt(d, 1), ParseIntAt(d, 0), ParseIntAt(t, 0), ParseIntAt(t, 1))
  }

  /**
   * The kickoff of a regional table row: the wall clock when the cell has no space,
   * otherwise the fields of its first two space-separated pieces, split on `/` and `:`;
   * `None` stands for the Invalid Date whose `toISOString` throws.
   */
  function FvgDate(rawDate: string, now: int): (r: Option<Timestamp>)
    ensures r == Some(Fallback(now)) <==> ' ' !in rawDate
  {
    var dateParts := Split(rawDate, ' ');
    if |dateParts| < 2 then Some(Fallback(now))
    else FvgFields(Split(dateParts[0], '/'), Split(dateParts[1], ':'))
  }

  /** Pieces that parseInt reads as numbers give those numbers as the fields. */
  lemma FvgFieldsOfNumbers(d: seq<string>, t: seq<string>,
                           day: int, month: int, year: int, hour: int, minute: int)
    requires ParseIntAt(d, 0) == Some(day) && ParseIntAt(d, 1) == Some(month)
    requires ParseIntAt(d, 2) == Some(year)
    requires ParseIntAt(t, 0) == Some(hour) && ParseIntAt(t, 1) == Some(minute)
    ensures FvgFields(d, t) == Some(Local(FixYear(year), month - 1, day, hour, minute))
  {
    var fields := LocalDate(Some(year), Some(month), Some(day), Some(hour), Some(minute));
    assert FvgFields(d, t) == fields;
    assert fields == Some(Local(FixYear(year), month - 1, day, hour, minute));
  }

  /** A cell with exactly one space reads the fields of the pieces around it. */
  lemma FvgDateSplitsOnce(datePart: string, timePart: string, now: int)
    requires ' ' !in datePart && ' ' !in timePart
    ensures FvgDate(datePart + " " + timePart, now) ==
            FvgFields(Split(datePart, '/'), Split(timePart, ':'))
  {
    SplitTwo(datePart, ' ', timePart);
  }

  /**
   * A `day/month/year hours:minutes` cell whose five pieces parse is read field by field,
   * with the month counted from 0 and a year below 100 moved into the 2000s.
   */
  lemma FvgDateOfNumbers(datePart: string, timePart: string, now: int,
                         day: int, month: int, year: int, hour: int, minute: int)
    requires ' ' !in datePart && ' ' !in timePart
    requires ParseIntAt(Split(datePart, '/'), 0) == Some(day)
    requires ParseIntAt(Split(datePart, '/'), 1) == Some(month)
    requires ParseIntAt(Split(datePart, '/'), 2) == Some(year)
    requires ParseIntAt(Split(timePart, ':'), 0) == Some(hour)
    requires ParseIntAt(Split(timePart, ':'), 1) == Some(minute)
    ensures FvgDate(datePart + " " + timePart, now) ==
            Some(Local(FixYear(year), month - 1, day, hour, minute))
  {
    FvgDateSplitsOnce(datePart, timePart, now);
    FvgFieldsOfNumbers(Split(datePart, '/'), Split(timePart, ':'), day, month, year, hour, minute);
  }

  /**
   * A cell with a space is an Invalid Date exactly when one of the five pieces is NaN,
   * a missing piece included.
   */
  lemma FvgDateInvalid(rawDate: string, now: int)
    requires ' ' in rawDate
    ensures var parts := Split(rawDate, ' ');
            var d := Split(parts[0], '/');
            var t := Split(parts[1], ':');
            FvgDate(rawDate, now).None? <==>
              ParseIntAt(d, 0).None? || ParseIntAt(d, 1).None? || ParseIntAt(d, 2).None? ||
              ParseIntAt(t, 0).None? || ParseIntAt(t, 1).None?
  {
  }

  /** A date cell without its year (`dd/mm HH:MM`) reads the year as NaN: an Invalid Date. */
  lemma FvgDateWithoutYear(datePart: string, timePart: string, now: int)
    requires ' ' !in datePart && ' ' !in timePart
    requires '/' in datePart && |Split(datePart, '/')| < 3
    ensures FvgDate(datePart + " " + timePart, now) == None
  {
    FvgDateSplitsOnce(datePart, timePart, now);
  }
}
