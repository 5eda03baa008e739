/**
 * The parts of java.time the core relies on: LocalDate and LocalDateTime
 * (valid by construction, as in Java), their chronological order, day
 * arithmetic, the ISO 8601 text written by `toString` and read by `parse`,
 * and the "MMM dd yyyy" display pattern. Nanoseconds are not modelled.
 */
module Calendar {
  import opened Results
  import opened Text

  /** Proleptic Gregorian leap-year rule, as `IsoChronology.isLeapYear`. */
  predicate IsLeapYear(year: int) {
    year % 4 == 0 && (year % 100 != 0 || year % 400 == 0)
  }

  type Month = m: int | 1 <= m <= 12 witness 1

  function LengthOfMonth(year: int, month: Month): int {
    if month == 2 then (if IsLeapYear(year) then 29 else 28)
    else if month == 4 || month == 6 || month == 9 || month == 11 then 30
    else 31
  }

  datatype CalendarDate = CalendarDate(year: int, month: Month, day: int)

  predicate ValidDate(d: CalendarDate) { 1 <= d.day <= LengthOfMonth(d.year, d.month) }

  /** `LocalDate`: a year, month and day that name an existing day. */
  type Date = d: CalendarDate | ValidDate(d) witness CalendarDate(1970, 1, 1)

  type Hour = h: int | 0 <= h < 24
  type Sixty = n: int | 0 <= n < 60

  /** `LocalDateTime` at a precision of one second. */
  datatype DateTime = DateTime(date: Date, hour: Hour, minute: Sixty, second: Sixty)

  /** `LocalDate.isBefore`. */
  predicate DateBefore(a: Date, b: Date) {
    a.year < b.year
    || (a.year == b.year && (a.month < b.month || (a.month == b.month && a.day < b.day)))
  }

  /** `LocalDateTime.isBefore`: the date first, then the time of day. */
  predicate DateTimeBefore(a: DateTime, b: DateTime) {
    DateBefore(a.date, b.date)
    || (a.date == b.date
        && (a.hour < b.hour
            || (a.hour == b.hour && (a.minute < b.minute || (a.minute == b.minute && a.second < b.second)))))
  }

  /** The first moment of a day. */
  function StartOfDay(d: Date): DateTime { DateTime(d, 0, 0, 0) }

  /** `LocalDateTime.toLocalDate`: the day whose span holds the moment. */
  function DateOf(t: DateTime): (r: Date)
    ensures !DateTimeBefore(t, StartOfDay(r)) && DateTimeBefore(t, StartOfDay(NextDay(r)))
  {
    t.date
  }

  /** A moment is before the start of the day after `d` exactly when its date is not after `d`. */
  lemma BeforeNextDay(t: DateTime, d: Date)
    ensures DateTimeBefore(t, StartOfDay(NextDay(d))) <==> !DateBefore(d, t.date)
  {
    DateBeforeTotal(d, t.date);
    if DateBefore(d, t.date) {
      assert !DateBefore(t.date, NextDay(d));
      DateBeforeTotal(t.date, NextDay(d));
    }
  }

  lemma DateBeforeTotal(a: Date, b: Date)
    ensures DateBefore(a, b) || a == b || DateBefore(b, a)
    ensures !(DateBefore(a, b) && DateBefore(b, a))
  {
  }

  /** A date-time that is not before another has a date that is not before the other's. */
  lemma DateOfNotBefore(a: DateTime, b: DateTime)
    requires !DateTimeBefore(b, a)
    ensures !DateBefore(b.date, a.date)
  {
  }

  // ---------------------------------------------------------------- day arithmetic

  /** The calendar day after `d`: later than `d`, and no valid date lies in between. */
  function NextDay(d: Date): (r: Date)
    ensures DateBefore(d, r)
    ensures forall x: Date :: DateBefore(d, x) ==> !DateBefore(x, r)
  {
    if d.day < LengthOfMonth(d.year, d.month) then CalendarDate(d.year, d.month, d.day + 1)
    else if d.month < 12 then CalendarDate(d.year, d.month + 1, 1)
    else CalendarDate(d.year + 1, 1, 1)
  }

  /** The calendar day before `d`: earlier than `d`, and no valid date lies in between. */
  function PrevDay(d: Date): (r: Date)
    ensures DateBefore(r, d)
    ensures forall x: Date :: DateBefore(x, d) ==> !DateBefore(r, x)
  {
    if d.day > 1 then CalendarDate(d.year, d.month, d.day - 1)
    else if d.month > 1 then CalendarDate(d.year, d.month - 1, LengthOfMonth(d.year, d.month - 1))
    else CalendarDate(d.year - 1, 12, 31)
  }

  /** `LocalDate.plusDays(n)`, `n` of either sign. */
  function PlusDays(d: Date, n: int): Date
    decreases if n < 0 then -n else n
  {
    if n == 0 then d
    else if n > 0 then PlusDays(NextDay(d), n - 1)
    else PlusDays(PrevDay(d), n + 1)
  }

  /** Adding days never moves a date backwards, and adding at least one moves it forwards. */
  lemma {:induction false} PlusDaysForward(d: Date, n: nat)
    ensures n == 0 ==> PlusDays(d, n) == d
    ensures n > 0 ==> DateBefore(d, PlusDays(d, n))
    decreases n
  {
    if n > 1 {
      PlusDaysForward(NextDay(d), n - 1);
    }
  }

  // ---------------------------------------------------------------- ISO 8601 text

  /** The largest year a `LocalDate` can hold, on either side of year 0. */
  const MaxYear := 999_999_999

  /** A date whose year a `LocalDate` can hold. */
  predicate YearInRange(d: Date) { -MaxYear <= d.year <= MaxYear }

  /**
   * The year as `LocalDate.toString` writes it: at least four digits, with
   * `+` above 9999 and `-` below 0 (`2026`, `+10000`, `-0001`, `-12345`).
   */
  function YearText(year: int): string {
    var a := if year < 0 then -year else year;
    (if year > 9999 then "+" else if year < 0 then "-" else "")
    + (if a < 10000 then Digits(a, 4) else NatToString(a))
  }

  /** `LocalDate.toString`: ISO 8601 extended calendar date `yyyy-MM-dd`. */
  function IsoDate(d: Date): string {
    YearText(d.year) + "-" + Digits(d.month, 2) + "-" + Digits(d.day, 2)
  }

  /**
   * `LocalDateTime.toString`: `yyyy-MM-ddTHH:mm`, with `:ss` appended only
   * when the seconds are not zero.
   */
  function IsoDateTime(t: DateTime): string {
    IsoDate(t.date) + "T" + Digits(t.hour, 2) + ":" + Digits(t.minute, 2)
    + (if t.second != 0 then ":" + Digits(t.second, 2) else "")
  }

  /** The value of the `n` digits at position `i`, if they are all digits. */
  function Field(s: string, i: nat, n: nat): (r: Option<nat>)
    ensures r.Some? ==> r.value < Pow10(n)
  {
    if i + n <= |s| && AllDigits(s[i..i + n]) then
      DigitsBound(s[i..i + n]);
      Some(ValueOf(s[i..i + n]))
    else None
  }

  lemma {:induction false} DigitsBound(s: string)
    requires AllDigits(s)
    ensures ValueOf(s) < Pow10(|s|)
  {
    if s != [] {
      DigitsBound(s[..|s| - 1]);
    }
  }

  /** A calendar date from fields, if they name an existing day. */
  function MakeDate(year: int, month: int, day: int): (r: Option<Date>)
    ensures r.Some? ==> r.value.year == year && r.value.month == month && r.value.day == day
  {
    if 1 <= month <= 12 && 1 <= day <= LengthOfMonth(year, month) then Some(CalendarDate(year, month, day))
    else None
  }

  /** A character the ISO text of a year can start with: a digit or a sign. */
  predicate YearStart(c: char) { IsDigit(c) || c == '+' || c == '-' }

  /**
   * The year field of ISO_LOCAL_DATE (`appendValue(YEAR, 4, 10,
   * SignStyle.EXCEEDS_PAD)`) read strictly: four digits without a sign; a
   * `+` only before five to ten digits; a `-` before four to ten digits that
   * are not all zero; and a value a `LocalDate` can hold.
   */
  function ParseIsoYear(t: string): (r: Option<int>)
    ensures r.Some? ==> 4 <= |t| <= 11 && YearStart(t[0]) && -MaxYear <= r.value <= MaxYear
  {
    if |t| == 4 && AllDigits(t) then
      DigitsBound(t);
      Pow10Values();
      Some(ValueOf(t))
    else if 6 <= |t| <= 11 && t[0] == '+' && AllDigits(t[1..]) && ValueOf(t[1..]) <= MaxYear then
      Some(ValueOf(t[1..]))
    else if 5 <= |t| <= 11 && t[0] == '-' && AllDigits(t[1..]) && 0 < ValueOf(t[1..]) <= MaxYear then
      Some(-(ValueOf(t[1..]) as int))
    else None
  }

  /**
   * `LocalDate.parse` with the strict ISO_LOCAL_DATE format: a year, then
   * `-MM-dd`, and the day must exist in that month. The month and day are
   * fixed two-digit fields, so the year is the text before the last six
   * characters.
   */
  function ParseIsoDate(s: string): (r: Option<Date>)
    ensures r.Some? ==> |s| >= 10 && YearStart(s[0]) && YearInRange(r.value)
  {
    if |s| < 6 || s[|s| - 6] != '-' || s[|s| - 3] != '-' then None
    else
      match (ParseIsoYear(s[..|s| - 6]), Field(s, |s| - 5, 2), Field(s, |s| - 2, 2))
      case (Some(y), Some(m), Some(d)) => MakeDate(y, m, d)
      case _ => None
  }

  /**
   * `LocalDateTime.parse` with ISO_LOCAL_DATE_TIME: a date, `T` (either
   * case), `HH:mm`, and optionally `:ss`. The time fields are fixed-width,
   * so the time is the last six characters `THH:mm` or the last nine
   * `THH:mm:ss`, and the date is the text before it.
   */
  function ParseIsoDateTime(s: string): (r: Option<DateTime>)
    ensures r.Some? ==> |s| >= 16 && YearStart(s[0]) && YearInRange(r.value.date)
  {
    var n := |s|;
    if n >= 6 && (s[n - 6] == 'T' || s[n - 6] == 't') && s[n - 3] == ':' then
      match (ParseIsoDate(s[..n - 6]), Field(s, n - 5, 2), Field(s, n - 2, 2))
      case (Some(d), Some(h), Some(m)) => if h < 24 && m < 60 then Some(DateTime(d, h, m, 0)) else None
      case _ => None
    else if n >= 9 && (s[n - 9] == 'T' || s[n - 9] == 't') && s[n - 6] == ':' && s[n - 3] == ':' then
      match (ParseIsoDate(s[..n - 9]), Field(s, n - 8, 2), Field(s, n - 5, 2), Field(s, n - 2, 2))
      case (Some(d), Some(h), Some(m), Some(sec)) =>
        if h < 24 && m < 60 && sec < 60 then Some(DateTime(d, h, m, sec)) else None
      case _ => None
    else None
  }

  lemma Pow10Values()
    ensures Pow10(2) == 100 && Pow10(4) == 10000
  {
  }

  lemma Pow10Nine()
    ensures Pow10(9) == 1_000_000_000
  {
    Pow10Values();
    assert Pow10(6) == 1_000_000;
  }

  /** A field holding `n` written in `width` digits reads as `n`. */
  lemma FieldAt(s: string, i: nat, width: nat, n: nat)
    requires n < Pow10(width) && i + width <= |s| && s[i..i + width] == Digits(n, width)
    ensures Field(s, i, width) == Some(n)
  {
  }

  /** The digits of a field that reads as a value are that value, zero-padded to the field's width. */
  lemma FieldText(s: string, i: nat, n: nat)
    requires Field(s, i, n).Some?
    ensures i + n <= |s| && Digits(Field(s, i, n).value, n) == s[i..i + n]
  {
    DigitsOfValue(s[i..i + n]);
  }

  /** A year that `toString` writes with more than four digits has five to nine of them. */
  lemma LongYearDigits(a: nat)
    requires 10000 <= a <= MaxYear
    ensures 5 <= |NatToString(a)| <= 9 && NatToString(a)[0] != '0'
  {
    var r := NatToString(a);
    Pow10Values();
    Pow10Nine();
    DigitsOfValue(r);
    Pow10Order(4, |r|);
    LeadingDigitBound(r);
    Pow10Order(|r| - 1, 9);
  }

  /** Every year a `LocalDate` can hold reads back from its text. */
  lemma YearTextRoundTrip(year: int)
    requires -MaxYear <= year <= MaxYear
    ensures ParseIsoYear(YearText(year)) == Some(year)
  {
    var a := if year < 0 then -year else year;
    if a >= 10000 {
      LongYearDigits(a);
      var t := YearText(year);
      assert t[1..] == NatToString(a);
    } else if year < 0 {
      ShortNegativeYear(year);
    } else {
      Pow10Values();
      assert YearText(year) == Digits(year, 4);
    }
  }

  lemma ShortNegativeYear(year: int)
    requires -10000 < year < 0
    ensures ParseIsoYear(YearText(year)) == Some(year)
  {
    Pow10Values();
    var t := YearText(year);
    assert t == "-" + Digits(-year, 4);
    assert t[0] == '-' && t[1..] == Digits(-year, 4);
  }

  /** A sign, then a zero, in a year of more than four digits: padding `toString` never writes. */
  predicate PaddedSignedYear(t: string) { |t| >= 6 && (t[0] == '+' || t[0] == '-') && t[1] == '0' }

  /**
   * The year reader accepts exactly the text `toString` writes, and besides
   * it a sign before a zero-padded number of more than four digits
   * (`+00001`, `-00123`), which reads as that year but is not how it is
   * written.
   */
  lemma YearTextStrict(t: string)
    requires ParseIsoYear(t).Some?
    ensures YearText(ParseIsoYear(t).value) == t <==> !PaddedSignedYear(t)
  {
    if |t| == 4 && AllDigits(t) {
      Pow10Values();
      DigitsOfValue(t);
    } else if |t| == 5 {
      ShortSignedYearText(t);
    } else if t[1] != '0' {
      LongSignedYearText(t);
    } else {
      PaddedYearText(t);
    }
  }

  /** A negative year of four digits is written as read. */
  lemma ShortSignedYearText(t: string)
    requires ParseIsoYear(t).Some? && |t| == 5
    ensures YearText(ParseIsoYear(t).value) == t
  {
    Pow10Values();
    var body := t[1..];
    assert t == [t[0]] + body;
    DigitsOfValue(body);
    assert YearText(ParseIsoYear(t).value) == [t[0]] + Digits(ValueOf(body), 4);
  }

  /** A signed year of five or more digits without a leading zero is written as read. */
  lemma LongSignedYearText(t: string)
    requires ParseIsoYear(t).Some? && |t| >= 6 && t[1] != '0'
    ensures YearText(ParseIsoYear(t).value) == t
  {
    var body := t[1..];
    assert t == [t[0]] + body;
    LongDigitsCanonical(body);
  }

  /** Five or more digits without a leading zero are at least 10000 and are the unpadded text of their value. */
  lemma LongDigitsCanonical(body: string)
    requires |body| >= 5 && AllDigits(body) && body[0] != '0'
    ensures ValueOf(body) >= 10000 && NatToString(ValueOf(body)) == body
  {
    Pow10Values();
    LeadingDigitBound(body);
    Pow10Monotone(4, |body| - 1);
    CanonicalDigits(body);
  }

  /** A signed year of five or more digits with a leading zero is not how any year is written. */
  lemma PaddedYearText(t: string)
    requires ParseIsoYear(t).Some? && |t| >= 6 && t[1] == '0'
    ensures YearText(ParseIsoYear(t).value) != t
  {
    var year := ParseIsoYear(t).value;
    if -10000 < year < 10000 {
      ShortYearTextLength(year);
    } else {
      LongYearTextSecond(year);
    }
  }

  /** A year of at most four digits is written in at most five characters. */
  lemma ShortYearTextLength(year: int)
    requires -10000 < year < 10000
    ensures |YearText(year)| <= 5
  {
    Pow10Values();
  }

  /** A year of five or more digits is written as a sign and a digit other than zero. */
  lemma LongYearTextSecond(year: int)
    requires year <= -10000 || 10000 <= year
    requires -MaxYear <= year <= MaxYear
    ensures |YearText(year)| >= 2 && YearText(year)[1] != '0'
  {
    var a := if year < 0 then -year else year;
    LongYearDigits(a);
    assert YearText(year)[1] == NatToString(a)[0];
  }

  /** Where the parts of `y-m-d` sit, for two-character month and day fields. */
  lemma IsoDateLayout(y: string, m: string, d: string)
    requires |m| == 2 && |d| == 2
    ensures var s := y + "-" + m + "-" + d;
      |s| == |y| + 6 && s[..|y|] == y && s[|y|] == '-' && s[|y| + 1..|y| + 3] == m && s[|y| + 3] == '-'
      && s[|y| + 4..|y| + 6] == d
  {
    var s := y + "-" + m + "-" + d;
    assert s == (y + "-" + m + "-") + d;
    assert s[..|y| + 4] == y + "-" + m + "-";
    assert (y + "-" + m + "-")[..|y| + 1] == y + "-";
  }

  /** The ISO text of a date: its year's text, then `-MM-dd`. */
  lemma IsoDateParts(d: Date)
    ensures var s := IsoDate(d);
      |s| == |YearText(d.year)| + 6 && s[..|s| - 6] == YearText(d.year) && s[|s| - 6] == '-'
      && s[|s| - 5..|s| - 3] == Digits(d.month, 2) && s[|s| - 3] == '-' && s[|s| - 2..|s|] == Digits(d.day, 2)
  {
    IsoDateLayout(YearText(d.year), Digits(d.month, 2), Digits(d.day, 2));
  }

  /** Where the parts of `dateTHH:mm` and its tail sit. */
  lemma IsoTimeLayout(date: string, hh: string, mm: string, tail: string)
    requires |hh| == 2 && |mm| == 2
    ensures var s := date + "T" + hh + ":" + mm + tail; var k := |date|;
      |s| == k + 6 + |tail| && s[..k] == date && s[k] == 'T' && s[k + 1..k + 3] == hh && s[k + 3] == ':'
      && s[k + 4..k + 6] == mm && s[k + 6..] == tail
  {
    var s := date + "T" + hh + ":" + mm + tail;
    var front := date + "T" + hh + ":" + mm;
    assert s == front + tail;
    assert s[..|date| + 6] == front;
    assert front[..|date| + 4] == date + "T" + hh + ":";
  }

  /** ISO date text reads back as the same date. */
  lemma IsoDateRoundTrip(d: Date)
    requires YearInRange(d)
    ensures ParseIsoDate(IsoDate(d)) == Some(d)
  {
    Pow10Values();
    var s := IsoDate(d);
    IsoDateParts(d);
    YearTextRoundTrip(d.year);
    FieldAt(s, |s| - 5, 2, d.month);
    FieldAt(s, |s| - 2, 2, d.day);
  }

  /**
   * The strict format reads only the text `LocalDate.toString` writes, and
   * a signed year padded with zeros: no other spelling of a date (a missing
   * zero, a day past the month's end that a lenient reader would roll over)
   * is accepted.
   */
  lemma ParseIsoDateStrict(s: string)
    ensures ParseIsoDate(s).Some? ==> (IsoDate(ParseIsoDate(s).value) == s <==> !PaddedSignedYear(s[..|s| - 6]))
  {
    if ParseIsoDate(s).Some? {
      IsoDateFields(s);
      IsoDateTextStrict(ParseIsoDate(s).value, s);
    }
  }

  /** Text whose year, month and day fields read as `d` is `d`'s ISO text exactly when its year is not padded. */
  lemma IsoDateTextStrict(d: Date, s: string)
    requires |s| >= 10 && s[|s| - 6] == '-' && s[|s| - 3] == '-'
    requires ParseIsoYear(s[..|s| - 6]) == Some(d.year)
    requires Field(s, |s| - 5, 2) == Some(d.month) && Field(s, |s| - 2, 2) == Some(d.day)
    ensures IsoDate(d) == s <==> !PaddedSignedYear(s[..|s| - 6])
  {
    if PaddedSignedYear(s[..|s| - 6]) {
      PaddedIsNotIsoDate(d, s);
    } else {
      UnpaddedIsIsoDate(d, s);
    }
  }

  lemma PaddedIsNotIsoDate(d: Date, s: string)
    requires |s| >= 6 && ParseIsoYear(s[..|s| - 6]) == Some(d.year) && PaddedSignedYear(s[..|s| - 6])
    ensures IsoDate(d) != s
  {
    YearTextStrict(s[..|s| - 6]);
    IsoDateParts(d);
  }

  lemma UnpaddedIsIsoDate(d: Date, s: string)
    requires |s| >= 10 && s[|s| - 6] == '-' && s[|s| - 3] == '-'
    requires ParseIsoYear(s[..|s| - 6]) == Some(d.year) && !PaddedSignedYear(s[..|s| - 6])
    requires Field(s, |s| - 5, 2) == Some(d.month) && Field(s, |s| - 2, 2) == Some(d.day)
    ensures IsoDate(d) == s
  {
    YearTextStrict(s[..|s| - 6]);
    FieldText(s, |s| - 5, 2);
    FieldText(s, |s| - 2, 2);
    IsoDateOfText(d, s);
  }

  /** Where an accepted ISO date's fields come from. */
  lemma IsoDateFields(s: string)
    requires ParseIsoDate(s).Some?
    ensures |s| >= 10 && s[|s| - 6] == '-' && s[|s| - 3] == '-'
    ensures ParseIsoYear(s[..|s| - 6]) == Some(ParseIsoDate(s).value.year)
    ensures Field(s, |s| - 5, 2) == Some(ParseIsoDate(s).value.month)
    ensures Field(s, |s| - 2, 2) == Some(ParseIsoDate(s).value.day)
  {
  }

  /** Text holding a date's year text and its two-digit month and day, separated by `-`, is its ISO text. */
  lemma IsoDateOfText(d: Date, s: string)
    requires |s| >= 6 && s[|s| - 6] == '-' && s[|s| - 3] == '-' && YearText(d.year) == s[..|s| - 6]
    requires Digits(d.month, 2) == s[|s| - 5..|s| - 3] && Digits(d.day, 2) == s[|s| - 2..|s|]
    ensures IsoDate(d) == s
  {
    var k := |s| - 6;
    DateTextSplits(s, k);
    assert [s[k]] == "-" && [s[k + 3]] == "-";
  }

  /** Text of `k + 6` characters is its first `k`, one, two, one and two characters joined. */
  lemma DateTextSplits(s: string, k: nat)
    requires |s| == k + 6
    ensures s == s[..k] + [s[k]] + s[k + 1..k + 3] + [s[k + 3]] + s[k + 4..k + 6]
  {
    assert s[..k + 1] == s[..k] + [s[k]];
    assert s[..k + 3] == s[..k + 1] + s[k + 1..k + 3];
    assert s[..k + 4] == s[..k + 3] + [s[k + 3]];
    assert s == s[..k + 4] + s[k + 4..k + 6];
  }

  /** ISO date-time text reads back as the same date-time. */
  lemma IsoDateTimeRoundTrip(t: DateTime)
    requires YearInRange(t.date)
    ensures ParseIsoDateTime(IsoDateTime(t)) == Some(t)
  {
    IsoDateRoundTrip(t.date);
    if t.second == 0 {
      MinuteTextRoundTrip(t);
    } else {
      SecondTextRoundTrip(t);
    }
  }

  /** `dateTHH:mm`, the text of a date-time on a whole minute, reads back. */
  lemma MinuteTextRoundTrip(t: DateTime)
    requires t.second == 0 && ParseIsoDate(IsoDate(t.date)) == Some(t.date)
    ensures ParseIsoDateTime(IsoDateTime(t)) == Some(t)
  {
    var s, k := IsoDateTime(t), |IsoDate(t.date)|;
    MinuteTextFields(t);
    ReadMinuteForm(s, k, t.date, t.hour, t.minute);
  }

  lemma MinuteTextFields(t: DateTime)
    requires t.second == 0
    ensures var s, k := IsoDateTime(t), |IsoDate(t.date)|;
      |s| >= k && s[..k] == IsoDate(t.date) && MinutesAt(s, k, t.hour, t.minute)
  {
    Pow10Values();
    var date := IsoDate(t.date);
    var k := |date|;
    var hh, mm := Digits(t.hour, 2), Digits(t.minute, 2);
    var s := IsoDateTime(t);
    assert s == date + "T" + hh + ":" + mm + "";
    IsoTimeLayout(date, hh, mm, "");
    FieldAt(s, k + 1, 2, t.hour);
    FieldAt(s, k + 4, 2, t.minute);
  }

  /** `dateTHH:mm:ss`, the text of a date-time with seconds, reads back. */
  lemma SecondTextRoundTrip(t: DateTime)
    requires t.second != 0 && ParseIsoDate(IsoDate(t.date)) == Some(t.date)
    ensures ParseIsoDateTime(IsoDateTime(t)) == Some(t)
  {
    var s, k := IsoDateTime(t), |IsoDate(t.date)|;
    SecondTextFields(t);
    ReadSecondForm(s, k, t.date, t.hour, t.minute, t.second);
  }

  lemma SecondTextFields(t: DateTime)
    requires t.second != 0
    ensures var s, k := IsoDateTime(t), |IsoDate(t.date)|;
      |s| >= k && s[..k] == IsoDate(t.date) && SecondsAt(s, k, t.hour, t.minute, t.second)
  {
    Pow10Values();
    var date := IsoDate(t.date);
    var k := |date|;
    var hh, mm, ss := Digits(t.hour, 2), Digits(t.minute, 2), Digits(t.second, 2);
    var s := IsoDateTime(t);
    assert s == date + "T" + hh + ":" + mm + (":" + ss);
    SecondsLayout(date, hh, mm, ss);
    FieldAt(s, k + 1, 2, t.hour);
    FieldAt(s, k + 4, 2, t.minute);
    FieldAt(s, k + 7, 2, t.second);
  }

  /** Where the parts of `dateTHH:mm:ss` sit. */
  lemma SecondsLayout(date: string, hh: string, mm: string, ss: string)
    requires |hh| == 2 && |mm| == 2 && |ss| == 2
    ensures var s := date + "T" + hh + ":" + mm + (":" + ss); var k := |date|;
      |s| == k + 9 && s[..k] == date && s[k] == 'T' && s[k + 1..k + 3] == hh && s[k + 3] == ':'
      && s[k + 4..k + 6] == mm && s[k + 6] == ':' && s[k + 7..k + 9] == ss
  {
    var s := date + "T" + hh + ":" + mm + (":" + ss);
    var k := |date|;
    IsoTimeLayout(date, hh, mm, ":" + ss);
    assert s[k + 6..] == ":" + ss;
    assert s[k + 7..k + 9] == s[k + 6..][1..3];
  }

  /** `THH:mm` at position `k`, ending the text. */
  predicate MinutesAt(s: string, k: nat, h: nat, m: nat) {
    |s| == k + 6 && s[k] == 'T' && s[k + 3] == ':' && Field(s, k + 1, 2) == Some(h) && Field(s, k + 4, 2) == Some(m)
  }

  /** `THH:mm:ss` at position `k`, ending the text. */
  predicate SecondsAt(s: string, k: nat, h: nat, m: nat, sec: nat) {
    |s| == k + 9 && s[k] == 'T' && s[k + 3] == ':' && s[k + 6] == ':'
    && Field(s, k + 1, 2) == Some(h) && Field(s, k + 4, 2) == Some(m) && Field(s, k + 7, 2) == Some(sec)
  }

  /** Text ending in `THH:mm` after an ISO date reads as that date at that minute. */
  lemma ReadMinuteForm(s: string, k: nat, d: Date, h: nat, m: nat)
    requires |s| >= k && ParseIsoDate(s[..k]) == Some(d) && MinutesAt(s, k, h, m) && h < 24 && m < 60
    ensures ParseIsoDateTime(s) == Some(DateTime(d, h, m, 0))
  {
  }

  /** Text ending in `THH:mm:ss` after an ISO date reads as that date at that second. */
  lemma ReadSecondForm(s: string, k: nat, d: Date, h: nat, m: nat, sec: nat)
    requires |s| >= k && ParseIsoDate(s[..k]) == Some(d) && SecondsAt(s, k, h, m, sec)
    requires h < 24 && m < 60 && sec < 60
    ensures ParseIsoDateTime(s) == Some(DateTime(d, h, m, sec))
  {
  }

  // ---------------------------------------------------------------- display

  const MonthNames: seq<string> :=
    ["Jan", "Feb", "Mar", "Apr", "May", "Jun", "Jul", "Aug", "Sep", "Oct", "Nov", "Dec"]

  /** The `yyyy` (year-of-era) field: year 0 is 1 BC, shown as `0001`; no era is printed. */
  function YearOfEraText(year: int): string {
    var yoe := if year >= 1 then year else 1 - year;
    if yoe > 9999 then "+" + NatToString(yoe) else Digits(yoe, 4)
  }

  /** The month whose short English name is `name`. */
  function MonthNamed(name: string): (r: Option<Month>)
    ensures r.Some? ==> MonthNames[r.value - 1] == name
    ensures forall m: Month :: MonthNames[m - 1] == name ==> r == Some(m)
  {
    if name == "Jan" then Some(1) else if name == "Feb" then Some(2) else if name == "Mar" then Some(3)
    else if name == "Apr" then Some(4) else if name == "May" then Some(5) else if name == "Jun" then Some(6)
    else if name == "Jul" then Some(7) else if name == "Aug" then Some(8) else if name == "Sep" then Some(9)
    else if name == "Oct" then Some(10) else if name == "Nov" then Some(11) else if name == "Dec" then Some(12)
    else None
  }

  /** `DateTimeFormatter.ofPattern("MMM dd yyyy")` in an English locale, e.g. `Jan 15 2026`. */
  function DisplayDate(d: Date): string {
    MonthNames[d.month - 1] + " " + Digits(d.day, 2) + " " + YearOfEraText(d.year)
  }

  /** Reads `MMM dd yyyy` text (years 1 to 9999) back into a date. */
  function ParseDisplayDate(s: string): (r: Option<Date>)
    ensures r.Some? ==> |s| == 11
  {
    if |s| != 11 || s[3] != ' ' || s[6] != ' ' then None
    else
      match (MonthNamed(s[..3]), Field(s, 4, 2), Field(s, 7, 4))
      case (Some(m), Some(d), Some(y)) => if y >= 1 then MakeDate(y, m, d) else None
      case _ => None
  }

  /** A displayed date with a year from 1 to 9999 reads back as the same date. */
  lemma DisplayDateRoundTrip(d: Date)
    requires 1 <= d.year <= 9999
    ensures ParseDisplayDate(DisplayDate(d)) == Some(d)
  {
    Pow10Values();
    var name, dd, yy := MonthNames[d.month - 1], Digits(d.day, 2), Digits(d.year, 4);
    assert YearOfEraText(d.year) == yy;
    var s := DisplayDate(d);
    assert s == name + " " + dd + " " + yy;
    DisplayLayout(name, dd, yy);
    assert MonthNamed(name) == Some(d.month);
    FieldAt(s, 4, 2, d.day);
    FieldAt(s, 7, 4, d.year);
  }

  /** Where the parts of `name dd yyyy` sit, for a three-letter name. */
  lemma DisplayLayout(name: string, dd: string, yy: string)
    requires |name| == 3 && |dd| == 2 && |yy| == 4
    ensures var s := name + " " + dd + " " + yy;
      |s| == 11 && s[..3] == name && s[3] == ' ' && s[4..6] == dd && s[6] == ' ' && s[7..11] == yy
  {
    var s := name + " " + dd + " " + yy;
    assert s == (name + " " + dd + " ") + yy;
    assert s[..7] == name + " " + dd + " ";
    assert (name + " " + dd + " ")[..4] == name + " ";
  }

  /** The year-of-era pattern prints no era: 1 BC (year 0) and AD 1 look the same. */
  lemma DisplayDateYearZero(m: Month, day: int)
    requires 1 <= day <= LengthOfMonth(0, m) && day <= LengthOfMonth(1, m)
    ensures DisplayDate(CalendarDate(0, m, day)) == DisplayDate(CalendarDate(1, m, day))
  {
  }

  lemma Year2026Digits()
    ensures Digits(2026, 4) == "2026"
  {
    Pow10Values();
    assert Digits(2, 1) == "2";
    assert Digits(20, 2) == "20";
    assert Digits(202, 3) == "202";
  }

  lemma DisplayDateJanuary2026(d: Date)
    requires d.year == 2026 && d.month == 1
    ensures DisplayDate(d) == "Jan " + Digits(d.day, 2) + " 2026"
  {
    Year2026Digits();
    assert YearOfEraText(2026) == "2026";
  }

  lemma TwoDigitDays(day: int)
    requires 1 <= day <= 31
    ensures day == 10 ==> Digits(day, 2) == "10"
    ensures day == 12 ==> Digits(day, 2) == "12"
    ensures day == 15 ==> Digits(day, 2) == "15"
  {
    Pow10Values();
    assert Digits(1, 1) == "1";
  }

  /** `Jan 10 2026`, `Jan 12 2026` and `Jan 15 2026`, as the display pattern writes them. */
  lemma DisplayDateExamples(d: Date)
    requires d.year == 2026 && d.month == 1
    ensures d.day == 10 ==> DisplayDate(d) == "Jan " + "10" + " 2026"
    ensures d.day == 12 ==> DisplayDate(d) == "Jan " + "12" + " 2026"
    ensures d.day == 15 ==> DisplayDate(d) == "Jan " + "15" + " 2026"
  {
    DisplayDateJanuary2026(d);
    TwoDigitDays(d.day);
  }
}
