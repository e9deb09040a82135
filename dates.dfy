/**
 * Dates as the Abra handler normalises them: the date at the start of a text,
 * validated by the calendar, rendered in ISO form at midnight; and the strict
 * reading of that ISO form back into a date-time.
 */
module Dates {
  import opened Wrappers
  import opened Text
  import opened Numbers

  datatype DateTime = DateTime(year: nat, month: nat, day: nat, hour: nat, minute: nat, second: nat)

  /** The Gregorian leap-year rule. */
  predicate IsLeapYear(y: int) {
    y % 4 == 0 && (y % 100 != 0 || y % 400 == 0)
  }

  function DaysInMonth(year: int, month: int): (r: int)
    requires 1 <= month <= 12
    ensures 28 <= r <= 31
    ensures r == 29 <==> month == 2 && IsLeapYear(year)
    ensures r == 28 <==> month == 2 && !IsLeapYear(year)
    ensures r == 30 <==> month in {4, 6, 9, 11}
  {
    if month == 2 then (if IsLeapYear(year) then 29 else 28)
    else if month == 4 || month == 6 || month == 9 || month == 11 then 30
    else 31
  }

  /** The dates Python's datetime can hold: years 1 through 9999, real months, days within the month. */
  predicate ValidDate(year: int, month: int, day: int) {
    1 <= year <= 9999 && 1 <= month <= 12 && 1 <= day <= DaysInMonth(year, month)
  }

  predicate ValidDateTime(dt: DateTime) {
    ValidDate(dt.year, dt.month, dt.day) && dt.hour < 24 && dt.minute < 60 && dt.second < 60
  }

  predicate AtMidnight(dt: DateTime) {
    dt.hour == 0 && dt.minute == 0 && dt.second == 0
  }

  /** The digit groups captured by a match of `(\d{4})-?(\d{2})-?(\d{2})`. */
  datatype DateDigits = DateDigits(year: string, month: string, day: string)

  predicate DigitsAt(t: string, i: nat, n: nat) {
    i + n <= |t| && AllDigits(t[i..i + n])
  }

  /**
   * t starts with the groups g: four year digits, a dash when dash1, two month digits,
   * a dash when dash2, two day digits.
   */
  predicate DateMatchAt(t: string, g: DateDigits, dash1: bool, dash2: bool) {
    var i := if dash1 then 5 else 4;
    var j := if dash2 then i + 3 else i + 2;
    j + 2 <= |t| && |g.year| == 4 && |g.month| == 2 && |g.day| == 2
    && AllDigits(g.year) && AllDigits(g.month) && AllDigits(g.day)
    && t[..4] == g.year && (dash1 ==> t[4] == '-') && t[i..i + 2] == g.month
    && (dash2 ==> t[i + 2] == '-') && t[j..j + 2] == g.day
  }

  /**
   * re.match(r"(\d{4})-?(\d{2})-?(\d{2})", t) on ASCII digits. Each optional dash is taken
   * when present; giving it back cannot help, since a dash is not a digit, so the match is
   * unique and is found without backtracking.
   */
  function MatchDate(t: string): (r: Option<DateDigits>)
    ensures r.Some? ==> exists d1: bool, d2: bool :: DateMatchAt(t, r.value, d1, d2)
  {
    if !DigitsAt(t, 0, 4) then None
    else
      var i := if |t| > 4 && t[4] == '-' then 5 else 4;
      if !DigitsAt(t, i, 2) then None
      else
        var j := if |t| > i + 2 && t[i + 2] == '-' then i + 3 else i + 2;
        if !DigitsAt(t, j, 2) then None
        else
          var g := DateDigits(t[..4], t[i..i + 2], t[j..j + 2]);
          assert DateMatchAt(t, g, i == 5, j == i + 3);
          Some(g)
  }

  /** When the pattern matches at the start of t at all, MatchDate reports that match, and no other. */
  lemma MatchDateComplete(t: string, g: DateDigits, d1: bool, d2: bool)
    requires DateMatchAt(t, g, d1, d2)
    ensures MatchDate(t) == Some(g)
  {
    var i := if d1 then 5 else 4;
    assert d1 <==> (|t| > 4 && t[4] == '-') by {
      if !d1 {
        assert t[4] == t[i..i + 2][0];
      }
    }
    assert d2 <==> (|t| > i + 2 && t[i + 2] == '-') by {
      var j := i + 2;
      if !d2 {
        assert t[j] == t[j..j + 2][0];
      }
    }
  }

  /** datetime.strptime(y + "-" + m + "-" + d, "%Y-%m-%d") on the captured groups: midnight of that date, or ValueError. */
  function DateOfDigits(g: DateDigits): (r: Result<DateTime>)
    requires AllDigits(g.year) && AllDigits(g.month) && AllDigits(g.day)
    ensures r.Ok? <==> ValidDate(DigitsValue(g.year), DigitsValue(g.month), DigitsValue(g.day))
    ensures r.Ok? ==> ValidDateTime(r.value) && AtMidnight(r.value)
    ensures r.Ok? ==> r.value.year == DigitsValue(g.year) && r.value.month == DigitsValue(g.month)
                      && r.value.day == DigitsValue(g.day)
    ensures r.Err? ==> r.error.ValueError?
  {
    var y, m, d := DigitsValue(g.year), DigitsValue(g.month), DigitsValue(g.day);
    if ValidDate(y, m, d) then Ok(DateTime(y, m, d, 0, 0, 0))
    else Err(ValueError("time data does not match format '%Y-%m-%d'"))
  }

  /** The tens digit of a number below 100. */
  function Tens(n: nat): (c: char)
    requires n < 100
    ensures IsDigit(c) && DigitValue(c) == n / 10
  {
    DigitChar(n / 10)
  }

  /** The units digit of a number. */
  function Units(n: nat): (c: char)
    ensures IsDigit(c) && DigitValue(c) == n % 10
  {
    DigitChar(n % 10)
  }

  /** dt.strftime("%Y-%m-%d"): the calendar part, each field zero-padded, with a four-digit year. */
  function DateText(dt: DateTime): (r: string)
    requires ValidDateTime(dt)
    ensures |r| == 10 && r[4] == '-' && r[7] == '-'
    ensures forall k | 0 <= k < 10 && k != 4 && k != 7 :: IsDigit(r[k])
  {
    [Tens(dt.year / 100), Units(dt.year / 100), Tens(dt.year % 100), Units(dt.year % 100),
     '-', Tens(dt.month), Units(dt.month), '-', Tens(dt.day), Units(dt.day)]
  }

  /** dt.strftime("%H:%M:%S") */
  function TimeText(dt: DateTime): (r: string)
    requires ValidDateTime(dt)
    ensures |r| == 8 && r[2] == ':' && r[5] == ':'
    ensures forall k | 0 <= k < 8 && k != 2 && k != 5 :: IsDigit(r[k])
  {
    [Tens(dt.hour), Units(dt.hour), ':', Tens(dt.minute), Units(dt.minute), ':', Tens(dt.second), Units(dt.second)]
  }

  /** dt.strftime("%Y-%m-%dT%H:%M:%S") */
  function Render(dt: DateTime): (r: string)
    requires ValidDateTime(dt)
    ensures |r| == 19 && r[..10] == DateText(dt) && r[10] == 'T' && r[11..] == TimeText(dt)
  {
    DateText(dt) + "T" + TimeText(dt)
  }

  /**
   * The handler's date normaliser. Missing, empty or blank text has no date; otherwise the
   * date that starts the stripped text is checked against the calendar and returned as
   * "YYYY-MM-DDT00:00:00". Text with no leading date, or with an impossible one, raises
   * ValueError. Whatever time of day or zone follows the date is dropped.
   */
  function ParseDate(text: Option<string>): (r: Result<Option<string>>)
    ensures r.Err? ==> r.error.ValueError?
    ensures r.Ok? && r.value.Some? ==> |r.value.value| == 19 && r.value.value[10..] == "T00:00:00"
  {
    if text.None? || text.value == "" then Ok(None)
    else
      var t := Strip(text.value);
      if t == "" then Ok(None)
      else
        match MatchDate(t)
        case None => Err(ValueError("Invalid date"))
        case Some(g) =>
          match DateOfDigits(g)
          case Err(e) => Err(e)
          case Ok(dt) => Ok(Some(Render(dt)))
  }

  /** Missing text and whitespace-only text both read as "no date". */
  lemma ParseDateBlank(s: string)
    requires AllSpace(s)
    ensures ParseDate(Some(s)) == Ok(None)
    ensures ParseDate(None) == Ok(None)
  {
    StripEmptyIffAllSpace(s);
  }

  /**
   * A text that is not blank either yields the rendering of a valid calendar date at midnight,
   * taken from the leading date of the stripped text, or raises ValueError; it raises exactly
   * when there is no leading date or that date does not exist.
   */
  lemma ParseDateOutcome(s: string)
    requires !AllSpace(s)
    ensures ParseDate(Some(s)).Err? ==> ParseDate(Some(s)).error.ValueError?
    ensures ParseDate(Some(s)).Ok? <==>
              (MatchDate(Strip(s)).Some? && DateOfDigits(MatchDate(Strip(s)).value).Ok?)
    ensures ParseDate(Some(s)).Ok? ==>
              exists dt :: ValidDateTime(dt) && AtMidnight(dt) && ParseDate(Some(s)).value == Some(Render(dt))
  {
    StripEmptyIffAllSpace(s);
    if ParseDate(Some(s)).Ok? {
      var dt := DateOfDigits(MatchDate(Strip(s)).value).value;
      assert ParseDate(Some(s)).value == Some(Render(dt));
    }
  }

  /** Two decimal digits of a number below 100, read back, give the number. */
  lemma ReadTwo(s: string, n: nat)
    requires n < 100 && |s| == 2 && s[0] == Tens(n) && s[1] == Units(n)
    ensures AllDigits(s) && DigitsValue(s) == n
  {
    DigitsValue2(s);
  }

  /** Four decimal digits of a number below 10000, read back, give the number. */
  lemma ReadFour(s: string, n: nat)
    requires n < 10000 && |s| == 4
    requires s[0] == Tens(n / 100) && s[1] == Units(n / 100) && s[2] == Tens(n % 100) && s[3] == Units(n % 100)
    ensures AllDigits(s) && DigitsValue(s) == n
  {
    var a, b := n / 100, n % 100;
    ReadTwo(s[..2], a);
    ReadTwo(s[2..], b);
    assert s == s[..2] + s[2..];
    DigitsValueConcat(s[..2], s[2..]);
    Pow10Small();
  }

  /** The calendar groups found at the start of a rendered date-time, and the fields they denote. */
  lemma RenderedFields(dt: DateTime) returns (g: DateDigits)
    requires ValidDateTime(dt)
    ensures g == DateDigits(Render(dt)[..4], Render(dt)[5..7], Render(dt)[8..10])
    ensures AllDigits(g.year) && AllDigits(g.month) && AllDigits(g.day)
    ensures DigitsValue(g.year) == dt.year && DigitsValue(g.month) == dt.month && DigitsValue(g.day) == dt.day
  {
    var r := Render(dt);
    g := DateDigits(r[..4], r[5..7], r[8..10]);
    var t := DateText(dt);
    assert forall k | 0 <= k < 10 :: r[k] == t[k];
    ReadFour(g.year, dt.year);
    ReadTwo(g.month, dt.month);
    ReadTwo(g.day, dt.day);
  }

  /** The clock fields of a rendered date-time read back as the clock. */
  lemma RenderedClock(dt: DateTime)
    requires ValidDateTime(dt)
    ensures var r := Render(dt);
      DigitsValue(r[11..13]) == dt.hour && DigitsValue(r[14..16]) == dt.minute && DigitsValue(r[17..19]) == dt.second
      && AllDigits(r[11..13]) && AllDigits(r[14..16]) && AllDigits(r[17..19])
  {
    var r, t := Render(dt), TimeText(dt);
    assert forall k | 0 <= k < 8 :: r[k + 11] == t[k];
    ReadTwo(r[11..13], dt.hour);
    ReadTwo(r[14..16], dt.minute);
    ReadTwo(r[17..19], dt.second);
  }

  /** The leading date of a rendered date-time is its own calendar part, which denotes the same date. */
  lemma MatchRendered(dt: DateTime) returns (g: DateDigits)
    requires ValidDateTime(dt) && AtMidnight(dt)
    ensures MatchDate(Render(dt)) == Some(g)
    ensures DateOfDigits(g) == Ok(dt)
  {
    g := RenderedFields(dt);
    var r := Render(dt);
    assert r[4] == '-' && r[7] == '-';
    assert DateMatchAt(r, g, true, true);
    MatchDateComplete(r, g, true, true);
  }

  /** A rendered midnight date-time is its own normal form. */
  lemma ParseDateOfRender(dt: DateTime)
    requires ValidDateTime(dt) && AtMidnight(dt)
    ensures ParseDate(Some(Render(dt))) == Ok(Some(Render(dt)))
  {
    var o := Render(dt);
    assert o[0] == DateText(dt)[0] && o[18] == TimeText(dt)[7];
    var g := MatchRendered(dt);
    ParseDateOfMatch(o, g, true, true);
  }

  /**
   * The normal form is a fixed point: normalising an already normalised date gives it back.
   * This is what makes the second normalisation applied when invoices are loaded harmless.
   */
  lemma ParseDateIdempotent(s: string, o: string)
    requires ParseDate(Some(s)) == Ok(Some(o))
    ensures ParseDate(Some(o)) == Ok(Some(o))
  {
    var dt := DateOfDigits(MatchDate(Strip(s)).value).value;
    assert o == Render(dt);
    ParseDateOfRender(dt);
  }

  /** A text with no whitespace at its ends that starts with the groups g normalises to the date those groups denote. */
  lemma ParseDateOfMatch(s: string, g: DateDigits, d1: bool, d2: bool)
    requires |s| > 0 && !IsSpace(s[0]) && !IsSpace(s[|s| - 1])
    requires DateMatchAt(s, g, d1, d2)
    ensures DateOfDigits(g).Ok? ==> ParseDate(Some(s)) == Ok(Some(Render(DateOfDigits(g).value)))
    ensures DateOfDigits(g).Err? ==> ParseDate(Some(s)) == Err(DateOfDigits(g).error)
  {
    StripOfStripped(s);
    MatchDateComplete(s, g, d1, d2);
  }

  /** The groups "2024", "03", "15" denote 15 March 2024. */
  lemma Example20240315()
    ensures DateOfDigits(DateDigits("2024", "03", "15")) == Ok(DateTime(2024, 3, 15, 0, 0, 0))
  {
    DigitsValue4("2024");
    DigitsValue2("03");
    DigitsValue2("15");
  }

  /** 15 March 2024 at midnight renders as "2024-03-15T00:00:00". */
  lemma RenderExample()
    ensures Render(DateTime(2024, 3, 15, 0, 0, 0)) == "2024-03-15T00:00:00"
  {
  }

  /** A time of day and a zone after the date are dropped. */
  lemma ParseDateDropsTime()
    ensures ParseDate(Some("2024-03-15T10:00:00+01:00")) == Ok(Some("2024-03-15T00:00:00"))
  {
    var a := "2024-03-15T10:00:00+01:00";
    var g := DateDigits("2024", "03", "15");
    assert a[..4] == "2024" && a[5..7] == "03" && a[8..10] == "15";
    ParseDateOfMatch(a, g, true, true);
    Example20240315();
    RenderExample();
  }

  /** The compact form without dashes reads the same as the dashed one. */
  lemma ParseDateCompact()
    ensures ParseDate(Some("20240315")) == Ok(Some("2024-03-15T00:00:00"))
  {
    var b := "20240315";
    var g := DateDigits("2024", "03", "15");
    assert b[..4] == "2024" && b[4..6] == "03" && b[6..8] == "15";
    ParseDateOfMatch(b, g, false, false);
    Example20240315();
    RenderExample();
  }

  /** 2023 is not a leap year, so it has no February 29th; 2024 is, and has one. */
  lemma LeapDayGroups()
    ensures DateOfDigits(DateDigits("2023", "02", "29")).Err?
    ensures DateOfDigits(DateDigits("2024", "02", "29")).Ok?
  {
    DigitsValue4("2023");
    DigitsValue4("2024");
    DigitsValue2("02");
    DigitsValue2("29");
  }

  /** An impossible calendar date raises instead of being normalised. */
  lemma ParseDateLeapDay()
    ensures ParseDate(Some("2023-02-29")).Err?
  {
    var a := "2023-02-29";
    var g := DateDigits("2023", "02", "29");
    assert a[..4] == "2023" && a[5..7] == "02" && a[8..10] == "29";
    ParseDateOfMatch(a, g, true, true);
    LeapDayGroups();
  }

  /** Text that does not start with a date raises ValueError. */
  lemma ParseDateRejectsText()
    ensures ParseDate(Some("garbage")) == Err(ValueError("Invalid date"))
  {
    var a := "garbage";
    StripOfStripped(a);
    assert a[..4][0] == 'g';
  }

  /**
   * The reading of an ISO date-time string into a datetime, restricted to the form
   * "YYYY-MM-DDTHH:MM:SS" that the normaliser produces. Anything else is refused.
   */
  function ParseIsoDateTime(s: string): (r: Option<DateTime>)
    ensures r.Some? ==> ValidDateTime(r.value)
  {
    if |s| == 19 && s[4] == '-' && s[7] == '-' && s[10] == 'T' && s[13] == ':' && s[16] == ':'
       && DigitsAt(s, 0, 4) && DigitsAt(s, 5, 2) && DigitsAt(s, 8, 2)
       && DigitsAt(s, 11, 2) && DigitsAt(s, 14, 2) && DigitsAt(s, 17, 2)
    then
      var dt := DateTime(DigitsValue(s[..4]), DigitsValue(s[5..7]), DigitsValue(s[8..10]),
                         DigitsValue(s[11..13]), DigitsValue(s[14..16]), DigitsValue(s[17..19]));
      if ValidDateTime(dt) then Some(dt) else None
    else None
  }

  /** Reading back what was rendered gives the same date-time. */
  lemma ParseIsoOfRender(dt: DateTime)
    requires ValidDateTime(dt)
    ensures ParseIsoDateTime(Render(dt)) == Some(dt)
  {
    var r := Render(dt);
    assert r[4] == '-' && r[7] == '-' && r[13] == ':' && r[16] == ':';
    var g := RenderedFields(dt);
    RenderedClock(dt);
  }

  /** Rendering what was read gives back the same text: the strict form is read losslessly. */
  lemma RenderOfParseIso(s: string)
    requires ParseIsoDateTime(s).Some?
    ensures Render(ParseIsoDateTime(s).value) == s
  {
    var dt := ParseIsoDateTime(s).value;
    var r := Render(dt);
    var g := RenderedFields(dt);
    RenderedClock(dt);
    assert r[4] == '-' && r[7] == '-' && r[13] == ':' && r[16] == ':';
    DigitsValueInjective(r[..4], s[..4]);
    DigitsValueInjective(r[5..7], s[5..7]);
    DigitsValueInjective(r[8..10], s[8..10]);
    DigitsValueInjective(r[11..13], s[11..13]);
    DigitsValueInjective(r[14..16], s[14..16]);
    DigitsValueInjective(r[17..19], s[17..19]);
    forall k | 0 <= k < 19 ensures r[k] == s[k] {
      if k < 4 {
        assert r[k] == r[..4][k] && s[k] == s[..4][k];
      } else if 5 <= k < 7 {
        assert r[k] == r[5..7][k - 5] && s[k] == s[5..7][k - 5];
      } else if 8 <= k < 10 {
        assert r[k] == r[8..10][k - 8] && s[k] == s[8..10][k - 8];
      } else if 11 <= k < 13 {
        assert r[k] == r[11..13][k - 11] && s[k] == s[11..13][k - 11];
      } else if 14 <= k < 16 {
        assert r[k] == r[14..16][k - 14] && s[k] == s[14..16][k - 14];
      } else if 17 <= k {
        assert r[k] == r[17..19][k - 17] && s[k] == s[17..19][k - 17];
      }
    }
  }
}
