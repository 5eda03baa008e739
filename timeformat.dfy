/**
 * TimeFormat: a date-time's time of day on a 12-hour clock in lower case,
 * `8pm` when the minute is zero and `8:30pm` otherwise.
 */
module TimeFormat {
  import opened Results
  import opened Text
  import opened Calendar

  /** The `h` field: clock-hour-of-am-pm, 12 for midnight and noon. */
  function Hour12(hour: Hour): (h: int)
    ensures 1 <= h <= 12
    ensures h % 12 == hour % 12
  {
    if hour % 12 == 0 then 12 else hour % 12
  }

  /** The `a` field, lowercased: `am` before noon, `pm` from noon on. */
  function Meridiem(hour: Hour): (r: string)
    ensures |r| == 2 && IsLowerCase(r)
    ensures r == "am" <==> hour < 12
  {
    if hour < 12 then "am" else "pm"
  }

  /**
   * `formatAmPm`: the pattern `ha` when the minute is zero and `h:mma`
   * otherwise, then lowercased. Only the hour and minute are used.
   */
  function FormatAmPm(t: DateTime): (r: string)
    ensures IsLowerCase(r)
    ensures 3 <= |r| <= 7
  {
    var clock := NatToString(Hour12(t.hour)) + (if t.minute == 0 then "" else ":" + Digits(t.minute, 2));
    assert IsLowerCase(clock) by {
      forall i | 0 <= i < |clock| ensures !('A' <= clock[i] <= 'Z') {
        var h := NatToString(Hour12(t.hour));
        if i >= |h| && t.minute != 0 {
          assert clock[i] == (":" + Digits(t.minute, 2))[i - |h|];
        }
      }
    }
    Pow10Values();
    var r := clock + Meridiem(t.hour);
    assert forall i | 0 <= i < |r| :: !('A' <= r[i] <= 'Z') by {
      forall i | 0 <= i < |r| ensures !('A' <= r[i] <= 'Z') {
        if i >= |clock| {
          assert r[i] == Meridiem(t.hour)[i - |clock|];
        }
      }
    }
    r
  }

  /** Reads `8pm` / `8:30pm` text back into an hour and a minute. */
  function ParseAmPm(s: string): (r: Option<(Hour, Sixty)>) {
    if |s| < 3 || (s[|s| - 2..] != "am" && s[|s| - 2..] != "pm") then None
    else
      var clock := s[..|s| - 2];
      var hasMinute := |clock| >= 3 && clock[|clock| - 3] == ':';
      var hText := if hasMinute then clock[..|clock| - 3] else clock;
      var mText := if hasMinute then clock[|clock| - 2..] else "";
      if hText == [] || |hText| > 2 || !AllDigits(hText) || hText[0] == '0' || !AllDigits(mText) then None
      else
        var h := ValueOf(hText);
        var m := if hasMinute then ValueOf(mText) else 0;
        if 1 <= h <= 12 && (hasMinute ==> 1 <= m < 60) then
          var hour := if s[|s| - 2..] == "am" then h % 12 else h % 12 + 12;
          Some((hour, m))
        else None
  }

  /** The formatted time reads back as its hour and minute. */
  lemma {:induction false} FormatAmPmRoundTrip(t: DateTime)
    ensures ParseAmPm(FormatAmPm(t)) == Some((t.hour, t.minute))
  {
    Pow10Values();
    var hText := NatToString(Hour12(t.hour));
    var tail := if t.minute == 0 then "" else ":" + Digits(t.minute, 2);
    var clock := hText + tail;
    var s := FormatAmPm(t);
    assert s == clock + Meridiem(t.hour);
    assert s[..|s| - 2] == clock;
    assert s[|s| - 2..] == Meridiem(t.hour);
    assert 1 <= |hText| <= 2;
    if t.minute == 0 {
      assert clock == hText;
    } else {
      assert clock[|clock| - 3] == ':';
      assert clock[..|clock| - 3] == hText;
      assert clock[|clock| - 2..] == Digits(t.minute, 2);
    }
  }

  /** Two date-times format alike exactly when they agree on hour and minute; the date plays no part. */
  lemma FormatAmPmDependsOnTimeOnly(a: DateTime, b: DateTime)
    ensures FormatAmPm(a) == FormatAmPm(b) <==> a.hour == b.hour && a.minute == b.minute
  {
    FormatAmPmRoundTrip(a);
    FormatAmPmRoundTrip(b);
  }

  /** Midnight and noon both show the hour as `12`. */
  lemma MidnightAndNoonShowTwelve(t: DateTime)
    requires t.hour == 0 || t.hour == 12
    ensures FormatAmPm(t)[..2] == "12"
  {
    Pow10Values();
  }

  /** A nonzero minute always takes two digits after the colon, e.g. `8:05pm`. */
  lemma MinuteHasTwoDigits(t: DateTime)
    requires t.minute != 0
    ensures var s := FormatAmPm(t);
      s[|s| - 5] == ':' && s[|s| - 4..|s| - 2] == Digits(t.minute, 2)
  {
    Pow10Values();
    var clock := NatToString(Hour12(t.hour)) + (":" + Digits(t.minute, 2));
    assert FormatAmPm(t) == clock + Meridiem(t.hour);
  }

  lemma TwoDigitExamples()
    ensures Digits(30, 2) == "30" && Digits(5, 2) == "05"
  {
    Pow10Values();
    assert Digits(3, 1) == "3";
    assert Digits(0, 1) == "0";
  }

  /** A whole hour from 1am to 9am, or from 1pm to 9pm, shows as one digit and the meridiem. */
  lemma OneDigitHour(t: DateTime, digit: char)
    requires t.minute == 0 && 1 <= Hour12(t.hour) <= 9 && digit == DigitChar(Hour12(t.hour))
    ensures FormatAmPm(t) == [digit] + Meridiem(t.hour)
  {
    assert FormatAmPm(t) == NatToString(Hour12(t.hour)) + Meridiem(t.hour);
  }

  /** 09:00 shows as `9am`, 17:30 as `5:30pm` and 18:00 as `6pm`. */
  lemma FormatAmPmMoreExamples(t: DateTime)
    ensures t.hour == 9 && t.minute == 0 ==> FormatAmPm(t) == "9am"
    ensures t.hour == 17 && t.minute == 30 ==> FormatAmPm(t) == "5:30pm"
    ensures t.hour == 18 && t.minute == 0 ==> FormatAmPm(t) == "6pm"
  {
    if t.hour == 9 && t.minute == 0 {
      OneDigitHour(t, '9');
    } else if t.hour == 17 && t.minute == 30 {
      TwoDigitExamples();
      assert NatToString(Hour12(t.hour)) == "5";
    } else if t.hour == 18 && t.minute == 0 {
      OneDigitHour(t, '6');
    }
  }

  /** 20:00 shows as `8pm`, 20:30 as `8:30pm`, 20:05 as `8:05pm`. */
  lemma FormatAmPmExamples(t: DateTime)
    requires t.hour == 20
    ensures t.minute == 0 ==> FormatAmPm(t) == "8pm"
    ensures t.minute == 30 ==> FormatAmPm(t) == "8:30pm"
    ensures t.minute == 5 ==> FormatAmPm(t) == "8:05pm"
  {
    TwoDigitExamples();
    assert NatToString(Hour12(t.hour)) == "8";
  }
}
