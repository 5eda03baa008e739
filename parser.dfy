/**
 * Parser: static helpers that split a command line into its command word
 * and remainder and read task numbers, dates and date-times from text.
 * Every function here is pure; none reads or changes application state.
 */
module Parser {
  import opened Results
  import opened Text
  import opened Calendar

  /** The offset between the 1-based numbers users type and list indices. */
  const UserIndexOffset := 1

  // ---------------------------------------------------------------- words

  /** `getCommandWord`: the text before the first space, in lower case. */
  function GetCommandWord(input: string): (r: string)
    ensures IsLowerCase(r)
    ensures |r| <= |input| && ' ' !in r
  {
    var head := SplitOnce(input, " ")[0];
    IndexOfSpec(input, " ");
    assert forall j :: 0 <= j < |head| ==> head[j] != ' ' by {
      forall j | 0 <= j < |head| ensures head[j] != ' ' {
        assert !OccursAt(input, " ", j);
        assert input[j..j + 1] == [head[j]];
      }
    }
    Lower(head)
  }

  /** A word without spaces contains no space to split at. */
  lemma NoSpaceIn(word: string)
    requires ' ' !in word
    ensures IndexOf(word, " ") == None
  {
    forall j ensures !OccursAt(word, " ", j) {
      if 0 <= j < |word| {
        assert word[j..j + 1] == [word[j]];
      }
    }
    NoOccurrence(word, " ");
  }

  /** In `word tail`, the first space is the one right after the word. */
  lemma FirstSpaceAfter(word: string, tail: string)
    requires ' ' !in word
    ensures IndexOf(word + " " + tail, " ") == Some(|word|)
  {
    var s := word + " " + tail;
    assert s[|word|..|word| + 1] == " ";
    forall j | 0 <= j < |word| ensures !OccursAt(s, " ", j) {
      assert s[j..j + 1] == [word[j]];
    }
    IndexOfIs(s, " ", |word|);
  }

  /** A line made of a word, a space and anything else has that word, lowercased, as command word. */
  lemma CommandWordOf(word: string, rest: string)
    requires ' ' !in word
    ensures GetCommandWord(word + " " + rest) == Lower(word)
  {
    FirstSpaceAfter(word, rest);
    assert (word + " " + rest)[..|word|] == word;
  }

  /** A line without a space is its own command word. */
  lemma CommandWordOfSingle(word: string)
    requires ' ' !in word
    ensures GetCommandWord(word) == Lower(word)
  {
    NoSpaceIn(word);
  }

  /** `getRemainder`: what follows the first space of the trimmed line, trimmed; `""` if there is no space. */
  function GetRemainder(input: string): (r: string)
    ensures Clean(r)
  {
    var trimmed := Trim(input);
    match IndexOf(trimmed, " ")
    case None => ""
    case Some(k) => Trim(trimmed[k + 1..])
  }

  predicate NoWhite(s: string) { forall i :: 0 <= i < |s| ==> !IsWhite(s[i]) }

  lemma AllWhiteJoin(a: string, b: string)
    requires AllWhite(a) && AllWhite(b)
    ensures AllWhite(a + b)
  {
    forall i | 0 <= i < |a + b| ensures IsWhite((a + b)[i]) {
      if i >= |a| { assert (a + b)[i] == b[i - |a|]; }
    }
  }

  /** The remainder of `word rest` is `rest` trimmed, whatever white space surrounds it. */
  lemma RemainderOf(word: string, rest: string)
    requires word != [] && NoWhite(word)
    ensures GetRemainder(word + " " + rest) == Trim(rest)
  {
    var w1, w2 := TrimSplits(rest);
    var m := Trim(rest);
    var input := word + " " + rest;
    if m == [] {
      AllWhiteJoin(" ", w1);
      AllWhiteJoin(" " + w1, w2);
      assert input == [] + word + (" " + w1 + w2);
      TrimOf([], word, " " + w1 + w2);
      NoSpaceIn(word);
    } else {
      RemainderOfCore(word, w1, m, w2);
    }
  }

  lemma RemainderOfCore(word: string, w1: string, m: string, w2: string)
    requires word != [] && NoWhite(word)
    requires AllWhite(w1) && AllWhite(w2) && m != [] && Clean(m)
    ensures GetRemainder(word + " " + (w1 + m + w2)) == m
  {
    var tail := w1 + m;
    var core := word + " " + tail;
    var input := word + " " + (w1 + m + w2);
    assert input == [] + core + w2;
    assert Clean(core) by {
      assert core[0] == word[0];
      assert core[|core| - 1] == m[|m| - 1];
    }
    TrimOf([], core, w2);
    assert Trim(input) == core;
    assert ' ' !in word by {
      forall i | 0 <= i < |word| ensures word[i] != ' ' {
        assert !IsWhite(word[i]);
      }
    }
    FirstSpaceAfter(word, tail);
    assert core[|word| + 1..] == tail;
    TrimOf(w1, m, []);
    assert w1 + m + [] == tail;
  }

  // ---------------------------------------------------------------- integers

  const IntMin := -0x8000_0000
  const IntMax := 0x7fff_ffff

  predicate InInt32(x: int) { IntMin <= x <= IntMax }

  /** `Integer.parseInt`: an optional sign, then one or more digits, within 32 bits. */
  function ParseInt(s: string): (r: Option<int>)
    ensures r.Some? ==> InInt32(r.value)
  {
    if s == [] then None
    else
      var body := if s[0] == '-' || s[0] == '+' then s[1..] else s;
      if body == [] || !AllDigits(body) then None
      else
        var v := if s[0] == '-' then 0 - ValueOf(body) as int else ValueOf(body) as int;
        if InInt32(v) then Some(v) else None
  }

  /** Only an optional sign followed by one or more digits parses. */
  lemma ParsedTextIsDigits(s: string)
    requires ParseInt(s).Some?
    ensures s != [] && AllDigits(if s[0] == '-' || s[0] == '+' then s[1..] else s)
    ensures !(s[0] == '-' || s[0] == '+') || |s| >= 2
  {
  }

  /** `Integer.toString` on a 32-bit value. */
  function IntToString(x: int): string {
    if x < 0 then "-" + NatToString(-x) else NatToString(x)
  }

  /** Every 32-bit integer's decimal text parses back to it. */
  lemma ParseIntRoundTrip(x: int)
    requires InInt32(x)
    ensures ParseInt(IntToString(x)) == Some(x)
  {
    var s := IntToString(x);
    if x < 0 {
      assert s[1..] == NatToString(-x);
    }
  }

  /** A digit string, alone or after one sign, reads as its value when that fits an `int`. */
  lemma ParseIntOfDigits(body: string)
    requires body != [] && AllDigits(body) && ValueOf(body) <= IntMax
    ensures ParseInt(body) == Some(ValueOf(body))
    ensures ParseInt("+" + body) == Some(ValueOf(body))
    ensures ParseInt("-" + body) == Some(-(ValueOf(body) as int))
  {
    assert IsDigit(body[0]);
    assert ("+" + body)[0] == '+' && ("+" + body)[1..] == body;
    assert ("-" + body)[0] == '-' && ("-" + body)[1..] == body;
  }

  /**
   * `Integer.parseInt` is lenient beyond `Integer.toString`'s text: a leading
   * `+` and leading zeros are accepted, so `+2`, `02` and `-007` read as 2, 2 and -7.
   */
  lemma ParseIntLenient(zeros: string, n: nat)
    requires AllZeros(zeros) && n <= IntMax
    ensures ParseInt(zeros + NatToString(n)) == Some(n)
    ensures ParseInt("+" + zeros + NatToString(n)) == Some(n)
    ensures ParseInt("-" + zeros + NatToString(n)) == Some(-(n as int))
  {
    var body := zeros + NatToString(n);
    LeadingZeros(zeros, NatToString(n));
    ParseIntOfDigits(body);
    assert "+" + zeros + NatToString(n) == "+" + body;
    assert "-" + zeros + NatToString(n) == "-" + body;
  }

  /** Subtraction on Java's `int`: the result wraps around modulo 2^32. */
  function IntSub(a: int, b: int): (r: int)
    requires InInt32(a) && InInt32(b)
    ensures InInt32(r)
    ensures InInt32(a - b) ==> r == a - b
    ensures (r - (a - b)) % 0x1_0000_0000 == 0
  {
    if a - b < IntMin then a - b + 0x1_0000_0000
    else if a - b > IntMax then a - b - 0x1_0000_0000
    else a - b
  }

  /**
   * `parseTaskIndex`: the remainder read as an `int`, minus one; any text
   * that is not a decimal `int` fails with the caller's message.
   */
  function ParseTaskIndex(input: string, invalidMessage: string): (r: Result<int>)
    ensures r.Ok? || r == Fail(invalidMessage)
    ensures r.Ok? <==> ParseInt(GetRemainder(input)).Some?
    ensures r.Ok? ==> InInt32(r.value)
  {
    match ParseInt(GetRemainder(input))
    case None => Fail(invalidMessage)
    case Some(n) => Ok(IntSub(n, UserIndexOffset))
  }

  /** The decimal text of an `int` is its own trimmed form. */
  lemma IntTextClean(n: int)
    ensures IntToString(n) != [] && Trim(IntToString(n)) == IntToString(n)
  {
    var s := IntToString(n);
    if n < 0 {
      assert s[1..] == NatToString(-n);
      assert s[|s| - 1] == NatToString(-n)[|NatToString(-n)| - 1];
    }
    assert !IsWhite(s[0]) && !IsWhite(s[|s| - 1]);
    TrimOf([], s, []);
    assert [] + s + [] == s;
  }

  /** The task number typed after a command word is what `parseTaskIndex` reads. */
  lemma RemainderIsNumber(word: string, n: int)
    requires word != [] && NoWhite(word) && InInt32(n)
    ensures ParseInt(GetRemainder(word + " " + IntToString(n))) == Some(n)
  {
    RemainderOf(word, IntToString(n));
    IntTextClean(n);
    ParseIntRoundTrip(n);
  }

  /** Any `int` typed after a command word becomes that number minus one, in `int` arithmetic. */
  lemma TaskIndexOfInt(word: string, n: int, msg: string)
    requires word != [] && NoWhite(word) && InInt32(n)
    ensures ParseTaskIndex(word + " " + IntToString(n), msg) == Ok(IntSub(n, UserIndexOffset))
  {
    RemainderIsNumber(word, n);
  }

  /** The user's number `n` after a command word becomes index `n - 1`. */
  lemma TaskIndexOf(word: string, n: int, msg: string)
    requires word != [] && NoWhite(word)
    requires IntMin < n <= IntMax
    ensures ParseTaskIndex(word + " " + IntToString(n), msg) == Ok(n - 1)
  {
    TaskIndexOfInt(word, n, msg);
  }

  /** Text that starts and ends with a visible character is the remainder as typed. */
  lemma RemainderIsText(word: string, text: string)
    requires word != [] && NoWhite(word)
    requires text != [] && !IsWhite(text[0]) && !IsWhite(text[|text| - 1])
    ensures GetRemainder(word + " " + text) == text
  {
    RemainderOf(word, text);
    TrimOf([], text, []);
    assert [] + text + [] == text;
  }

  /** Whatever text reads as the number `n` after a command word names index `n - 1`. */
  lemma TaskIndexOfText(word: string, text: string, n: int, msg: string)
    requires word != [] && NoWhite(word)
    requires text != [] && !IsWhite(text[0]) && !IsWhite(text[|text| - 1])
    requires ParseInt(text) == Some(n) && n != IntMin
    ensures ParseTaskIndex(word + " " + text, msg) == Ok(n - 1)
  {
    RemainderIsText(word, text);
  }

  /** Digits, possibly after a `+`, are visible text that reads as their value. */
  lemma LenientNumber(text: string, body: string)
    requires body != [] && AllDigits(body) && ValueOf(body) <= IntMax
    requires text == body || text == "+" + body
    ensures text != [] && !IsWhite(text[0]) && !IsWhite(text[|text| - 1])
    ensures ParseInt(text) == Some(ValueOf(body))
  {
    assert IsDigit(body[0]) && IsDigit(body[|body| - 1]);
    ParseIntOfDigits(body);
    if text != body {
      assert text[|text| - 1] == body[|body| - 1];
    }
  }

  /** `delete 002` and `delete +2` both name the second task, as `delete 2` does. */
  lemma TaskIndexLenient(word: string, text: string, zeros: string, n: nat, msg: string)
    requires word != [] && NoWhite(word) && AllZeros(zeros) && 1 <= n <= IntMax
    requires text == zeros + NatToString(n) || text == "+" + zeros + NatToString(n)
    ensures ParseTaskIndex(word + " " + text, msg) == Ok(n - 1)
  {
    var body := zeros + NatToString(n);
    LeadingZeros(zeros, NatToString(n));
    assert text == body || text == "+" + body;
    LenientNumber(text, body);
    TaskIndexOfText(word, text, n, msg);
  }

  lemma IntSubWraps(n: int)
    requires n == IntMin
    ensures IntSub(n, UserIndexOffset) == IntMax
  {
  }

  /** Java's `int` arithmetic: the user number -2147483648 wraps to the largest index. */
  lemma TaskIndexWrapsAtIntMin(word: string, n: int, msg: string)
    requires word != [] && NoWhite(word) && n == IntMin
    ensures ParseTaskIndex(word + " " + IntToString(n), msg) == Ok(IntMax)
  {
    IntSubWraps(n);
    TaskIndexOfInt(word, n, msg);
  }

  /** A remainder with a character that is not a digit (past a leading sign) is not a task number. */
  lemma TaskIndexRejectsNonDigit(input: string, msg: string, i: nat)
    requires i < |GetRemainder(input)| && !IsDigit(GetRemainder(input)[i])
    requires i == 0 ==> GetRemainder(input)[0] != '-' && GetRemainder(input)[0] != '+'
    ensures ParseTaskIndex(input, msg) == Fail(msg)
  {
    var s := GetRemainder(input);
    var body := if s[0] == '-' || s[0] == '+' then s[1..] else s;
    if s[0] == '-' || s[0] == '+' {
      assert body[i - 1] == s[i];
    } else {
      assert body[i] == s[i];
    }
    assert !AllDigits(body);
  }

  /** A line with nothing after the command word has no task number. */
  lemma TaskIndexRejectsEmpty(input: string, msg: string)
    requires GetRemainder(input) == ""
    ensures ParseTaskIndex(input, msg) == Fail(msg)
  {
  }

  // ---------------------------------------------------------------- dates

  /**
   * `parseDateTime`: the pattern `yyyy-MM-dd HHmm` under java.time's default
   * (smart) resolver. The year is a year-of-era, so `0000` is refused; a day
   * of 29 to 31 past the end of its month is moved back to the month's last
   * day (2026-02-30 reads as 2026-02-28); the seconds are zero. The time
   * `2400` is the end of the day, read as midnight starting the next day
   * (so `9999-12-31 2400` is in year 10000).
   */
  function ParseDateTime(value: string, badMessage: string): (r: Result<DateTime>)
    ensures r.Ok? || r == Fail(badMessage)
    ensures r.Ok? ==> |value| == 15 && value[10] == ' '
    ensures r.Ok? ==> r.value.second == 0 && 1 <= r.value.date.year <= 10000
  {
    if |value| != 15 || value[4] != '-' || value[7] != '-' || value[10] != ' ' then Fail(badMessage)
    else
      match (Field(value, 0, 4), Field(value, 5, 2), Field(value, 8, 2), Field(value, 11, 2), Field(value, 13, 2))
      case (Some(y), Some(mo), Some(d), Some(h), Some(mi)) =>
        Pow10Values();
        if 1 <= y && 1 <= mo <= 12 && 1 <= d <= 31 && mi < 60 && (h < 24 || (h == 24 && mi == 0)) then
          var day := if d <= LengthOfMonth(y, mo) then d else LengthOfMonth(y, mo);
          var date := CalendarDate(y, mo, day);
          if h < 24 then Ok(DateTime(date, h, mi, 0)) else Ok(DateTime(NextDay(date), 0, 0, 0))
        else Fail(badMessage)
      case _ => Fail(badMessage)
  }

  /** The `yyyy-MM-dd HHmm` text the user types for given fields (day not yet checked). */
  function InputText(year: int, month: int, day: int, hour: int, minute: int): string
    requires 0 <= year <= 9999 && 0 <= month < 100 && 0 <= day < 100 && 0 <= hour < 100 && 0 <= minute < 100
  {
    Pow10Values();
    Digits(year, 4) + "-" + Digits(month, 2) + "-" + Digits(day, 2) + " " + Digits(hour, 2) + Digits(minute, 2)
  }

  lemma {:induction false} InputTextFields(year: int, month: int, day: int, hour: int, minute: int)
    requires 0 <= year <= 9999 && 0 <= month < 100 && 0 <= day < 100 && 0 <= hour < 100 && 0 <= minute < 100
    ensures var s := InputText(year, month, day, hour, minute);
      |s| == 15 && s[4] == '-' && s[7] == '-' && s[10] == ' '
      && Field(s, 0, 4) == Some(year) && Field(s, 5, 2) == Some(month) && Field(s, 8, 2) == Some(day)
      && Field(s, 11, 2) == Some(hour) && Field(s, 13, 2) == Some(minute)
  {
    Pow10Values();
    var y, mo, d, h, mi := Digits(year, 4), Digits(month, 2), Digits(day, 2), Digits(hour, 2), Digits(minute, 2);
    var date := y + "-" + mo + "-" + d;
    var s := InputText(year, month, day, hour, minute);
    assert s == date + " " + h + mi;
    IsoDateLayout(y, mo, d);
    InputLayout(date, h, mi);
    FieldAt(s, 0, 4, year);
    FieldAt(s, 5, 2, month);
    FieldAt(s, 8, 2, day);
    FieldAt(s, 11, 2, hour);
    FieldAt(s, 13, 2, minute);
  }

  /** Where the parts of `date hhmm` sit, for a ten-character date. */
  lemma InputLayout(date: string, h: string, mi: string)
    requires |date| == 10 && |h| == 2 && |mi| == 2
    ensures var s := date + " " + h + mi;
      |s| == 15 && s[..10] == date && s[10] == ' ' && s[11..13] == h && s[13..15] == mi
  {
    var s := date + " " + h + mi;
    assert s[..13] == date + " " + h;
  }

  /** Where the fields of accepted `yyyy-MM-dd HHmm` text come from. */
  lemma AcceptedFields(value: string, msg: string) returns (y: nat, mo: nat, d: nat, h: nat, mi: nat)
    requires ParseDateTime(value, msg).Ok?
    ensures |value| == 15 && value[4] == '-' && value[7] == '-' && value[10] == ' '
    ensures Field(value, 0, 4) == Some(y) && Field(value, 5, 2) == Some(mo) && Field(value, 8, 2) == Some(d)
    ensures Field(value, 11, 2) == Some(h) && Field(value, 13, 2) == Some(mi)
  {
    y, mo, d := Field(value, 0, 4).value, Field(value, 5, 2).value, Field(value, 8, 2).value;
    h, mi := Field(value, 11, 2).value, Field(value, 13, 2).value;
  }

  /** Fifteen characters holding the typed fields in place are the typed text of those fields. */
  lemma InputTextOfText(y: nat, mo: nat, d: nat, h: nat, mi: nat, value: string)
    requires y <= 9999 && mo < 100 && d < 100 && h < 100 && mi < 100
    requires |value| == 15 && value[4] == '-' && value[7] == '-' && value[10] == ' '
    requires Digits(y, 4) == value[0..4] && Digits(mo, 2) == value[5..7] && Digits(d, 2) == value[8..10]
    requires Digits(h, 2) == value[11..13] && Digits(mi, 2) == value[13..15]
    ensures InputText(y, mo, d, h, mi) == value
  {
    var yy, mm, dd, hh, nn := value[0..4], value[5..7], value[8..10], value[11..13], value[13..15];
    var date := yy + "-" + mm + "-" + dd;
    var t := InputText(y, mo, d, h, mi);
    assert t == date + " " + hh + nn;
    IsoDateLayout(yy, mm, dd);
    InputLayout(date, hh, nn);
    forall k | 0 <= k < 15
      ensures t[k] == value[k]
    {
      if k < 10 {
        assert t[k] == date[k];
        if k < 4 { assert date[k] == date[0..4][k]; }
        else if 4 < k < 7 { assert date[k] == date[5..7][k - 5]; }
        else if 7 < k { assert date[k] == date[8..10][k - 8]; }
      } else if 10 < k < 13 {
        assert t[k] == t[11..13][k - 11];
      } else if 13 <= k {
        assert t[k] == t[13..15][k - 13];
      }
    }
  }

  /**
   * `parseDateTime` accepts nothing but the `yyyy-MM-dd HHmm` layout: text
   * with other separators, a missing zero or extra characters (such as
   * `2026/01/10 1800` or `2026-1-10 1800`) is refused.
   */
  lemma AcceptedTextIsInputText(value: string, msg: string)
    requires ParseDateTime(value, msg).Ok?
    ensures exists y, mo, d, h, mi | 0 <= y <= 9999 && 0 <= mo < 100 && 0 <= d < 100 && 0 <= h < 100 && 0 <= mi < 100
      :: value == InputText(y, mo, d, h, mi)
  {
    var y, mo, d, h, mi := AcceptedFields(value, msg);
    FieldText(value, 0, 4);
    FieldText(value, 5, 2);
    FieldText(value, 8, 2);
    FieldText(value, 11, 2);
    FieldText(value, 13, 2);
    Pow10Values();
    InputTextOfText(y, mo, d, h, mi, value);
  }

  /**
   * What `parseDateTime` makes of well-shaped text: the date-time it names,
   * with a day of 29 to 31 clamped to the end of its month and `2400` read
   * as midnight of the following day, or the caller's message when a field
   * is out of range.
   */
  lemma ParseDateTimeOf(year: int, month: int, day: int, hour: int, minute: int, msg: string)
    requires 0 <= year <= 9999 && 0 <= month < 100 && 0 <= day < 100 && 0 <= hour < 100 && 0 <= minute < 100
    ensures var r := ParseDateTime(InputText(year, month, day, hour, minute), msg);
      if 1 <= year && 1 <= month <= 12 && 1 <= day <= 31 && hour < 24 && minute < 60 then
        r.Ok? && r.value.date.year == year && r.value.date.month == month
        && r.value.date.day == (if day <= LengthOfMonth(year, month) then day else LengthOfMonth(year, month))
        && r.value.hour == hour && r.value.minute == minute && r.value.second == 0
      else if 1 <= year && 1 <= month <= 12 && 1 <= day <= 31 && hour == 24 && minute == 0 then
        var date := CalendarDate(year, month, if day <= LengthOfMonth(year, month) then day else LengthOfMonth(year, month));
        r == Ok(DateTime(NextDay(date), 0, 0, 0))
      else r == Fail(msg)
  {
    InputTextFields(year, month, day, hour, minute);
  }

  /** Every date-time with a four-digit year and no seconds reads back from its typed text. */
  lemma ParseDateTimeRoundTrip(t: DateTime, msg: string)
    requires 1 <= t.date.year <= 9999 && t.second == 0
    ensures ParseDateTime(InputText(t.date.year, t.date.month, t.date.day, t.hour, t.minute), msg) == Ok(t)
  {
    ParseDateTimeOf(t.date.year, t.date.month, t.date.day, t.hour, t.minute, msg);
  }

  /**
   * `parseDate`: `LocalDate.parse`, i.e. strict ISO_LOCAL_DATE. A day past
   * the month's end is refused, and only a signed year padded with zeros
   * differs from the text `toString` writes.
   */
  function ParseDate(value: string, badMessage: string): (r: Result<Date>)
    ensures r.Ok? || r == Fail(badMessage)
    ensures r.Ok? ==> |value| >= 10 && YearInRange(r.value)
    ensures r.Ok? ==> (IsoDate(r.value) == value <==> !PaddedSignedYear(value[..|value| - 6]))
  {
    ParseIsoDateStrict(value);
    match ParseIsoDate(value)
    case Some(d) => Ok(d)
    case None => Fail(badMessage)
  }

  /** The ISO text of a date with a four-digit year parses back to that date. */
  lemma ParseDateRoundTrip(d: Date, msg: string)
    requires YearInRange(d)
    ensures ParseDate(IsoDate(d), msg) == Ok(d)
  {
    IsoDateRoundTrip(d);
  }
}
