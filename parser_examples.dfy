/**
 * The worked examples the parser is checked against: a command word, a
 * remainder, task numbers, a date and a date-time typed by a user.
 */
module ParserExamples {
  import opened Results
  import opened Text
  import opened Calendar
  import opened Parser

  /** `todo read book` has the command word `todo`. */
  lemma CommandWordExample()
    ensures GetCommandWord("todo read book") == "todo"
  {
    assert "todo read book" == "todo" + " " + "read book";
    CommandWordOf("todo", "read book");
    assert Lower("todo") == "todo";
  }

  /** `todo read book` has the remainder `read book`. */
  lemma RemainderExample()
    ensures GetRemainder("todo read book") == "read book"
  {
    assert "todo read book" == "todo" + " " + "read book";
    RemainderOf("todo", "read book");
    TrimOf("", "read book", "");
    assert "" + "read book" + "" == "read book";
  }

  /** `delete 2` names index 1. */
  lemma TaskIndexExample(msg: string)
    ensures ParseTaskIndex("delete 2", msg) == Ok(1)
  {
    assert IntToString(2) == "2";
    assert "delete 2" == "delete" + " " + IntToString(2);
    TaskIndexOf("delete", 2, msg);
  }

  /** `delete two` is not a task number. */
  lemma TaskIndexWordExample(msg: string)
    ensures ParseTaskIndex("delete two", msg) == Fail(msg)
  {
    assert "delete two" == "delete" + " " + "two";
    RemainderOf("delete", "two");
    TrimOf("", "two", "");
    assert "" + "two" + "" == "two";
    TaskIndexRejectsNonDigit("delete two", msg, 0);
  }

  /** The values of the digit groups in the examples. */
  lemma GroupValues()
    ensures ValueOf("2026") == 2026 && ValueOf("01") == 1 && ValueOf("10") == 10
    ensures ValueOf("18") == 18 && ValueOf("00") == 0
  {
    assert "2026"[..3] == "202" && "202"[..2] == "20" && "20"[..1] == "2" && "2"[..0] == "";
    assert "01"[..1] == "0" && "0"[..0] == "";
    assert "10"[..1] == "1" && "1"[..0] == "";
    assert "18"[..1] == "1" && "00"[..1] == "0";
  }

  /** `2026-01-10` is 10 January 2026. */
  lemma DateExample(msg: string)
    ensures ParseDate("2026-01-10", msg) == Ok(CalendarDate(2026, 1, 10))
  {
    var s := "2026-01-10";
    assert s[..4] == "2026" && s[5..7] == "01" && s[8..10] == "10";
    GroupValues();
    assert ParseIsoYear(s[..4]) == Some(2026);
  }

  /** `2026-02-30`, a day February 2026 does not have, is refused. */
  lemma MissingDayExample(msg: string)
    ensures ParseDate("2026-02-30", msg) == Fail(msg)
  {
    var s := "2026-02-30";
    assert s[..4] == "2026" && s[5..7] == "02" && s[8..10] == "30";
    assert ValueOf("02") == 2 && ValueOf("30") == 30 by {
      assert "02"[..1] == "0" && "30"[..1] == "3";
    }
    assert LengthOfMonth(2026, 2) == 28;
  }

  /**
   * The ISO year field: `+` only before more than four digits, so `+00001`
   * is year 1 while `+2026` and an unsigned `10000` are refused; `-0000`,
   * a negative zero, is refused too.
   */
  lemma IsoYearExamples()
    ensures ParseIsoYear("+00001") == Some(1)
    ensures ParseIsoYear("+2026") == None && ParseIsoYear("10000") == None && ParseIsoYear("-0000") == None
  {
    assert "+00001"[1..] == "0000" + "1";
    LeadingZeros("0000", "1");
    assert ValueOf("1") == 1 by {
      assert "1"[..0] == "";
    }
    assert "-0000"[1..] == "0000" + "";
    LeadingZeros("0000", "");
  }

  /** `10-01-2026`, day first, is refused. */
  lemma DayFirstDateExample(msg: string)
    ensures ParseDate("10-01-2026", msg) == Fail(msg)
  {
  }

  /** The fields of `2026-01-10 1800`. */
  lemma DateTimeFields(s: string)
    requires s == "2026-01-10 1800"
    ensures Field(s, 0, 4) == Some(2026) && Field(s, 5, 2) == Some(1) && Field(s, 8, 2) == Some(10)
    ensures Field(s, 11, 2) == Some(18) && Field(s, 13, 2) == Some(0)
  {
    assert s[0..4] == "2026" && s[5..7] == "01" && s[8..10] == "10" && s[11..13] == "18" && s[13..15] == "00";
    GroupValues();
  }

  /** `2026-01-10 1800` is 10 January 2026 at 18:00. */
  lemma DateTimeExample(msg: string)
    ensures ParseDateTime("2026-01-10 1800", msg) == Ok(DateTime(CalendarDate(2026, 1, 10), 18, 0, 0))
  {
    var s := "2026-01-10 1800";
    assert |s| == 15 && s[4] == '-' && s[7] == '-' && s[10] == ' ';
    DateTimeFields(s);
    assert LengthOfMonth(2026, 1) == 31;
  }

  /** `2026-01-10 2400` is midnight at the start of 11 January 2026. */
  lemma EndOfDayExample(msg: string)
    ensures ParseDateTime(InputText(2026, 1, 10, 24, 0), msg) == Ok(DateTime(CalendarDate(2026, 1, 11), 0, 0, 0))
  {
    ParseDateTimeOf(2026, 1, 10, 24, 0, msg);
    assert LengthOfMonth(2026, 1) == 31;
  }

  /** The first day of the year 10000, the earliest date no four-digit year can name. */
  const FirstDayOf10000: Date := CalendarDate(10000, 1, 1)

  /** `9999-12-31 2400` is the first moment of year 10000. */
  lemma LastYearEndOfDayExample(msg: string)
    ensures ParseDateTime(InputText(9999, 12, 31, 24, 0), msg) == Ok(DateTime(FirstDayOf10000, 0, 0, 0))
  {
    ParseDateTimeOf(9999, 12, 31, 24, 0, msg);
    assert LengthOfMonth(9999, 12) == 31;
  }

  /** `2026-01-10 2430`, past the end of the day, is refused. */
  lemma PastEndOfDayExample(msg: string)
    ensures ParseDateTime(InputText(2026, 1, 10, 24, 30), msg) == Fail(msg)
  {
    ParseDateTimeOf(2026, 1, 10, 24, 30, msg);
  }

  /** `2026-02-30 1800` is clamped to 28 February 2026 at 18:00. */
  lemma ClampedDateTimeExample(msg: string)
    ensures ParseDateTime(InputText(2026, 2, 30, 18, 0), msg) == Ok(DateTime(CalendarDate(2026, 2, 28), 18, 0, 0))
  {
    ParseDateTimeOf(2026, 2, 30, 18, 0, msg);
    assert LengthOfMonth(2026, 2) == 28;
  }
}
