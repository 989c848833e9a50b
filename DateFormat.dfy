/**
 * The text the creation dialog stores for a picked date and time: day,
 * month and year joined by dots, hours and minutes joined by a colon, each
 * number printed plainly (no zero padding), the month shifted from
 * JavaScript's 0-based index to 1..12.
 */
module DateFormat {
  import opened Optional
  import opened Text

  /**
   * The parts of a JavaScript `Date` the handlers read through `getDate`,
   * `getMonth` (0-based), `getFullYear`, `getHours` and `getMinutes`.
   */
  datatype Moment = Moment(year: int, month: nat, day: nat, hours: nat, minutes: nat)

  datatype DayMonthYear = DayMonthYear(day: nat, month: nat, year: int)
  datatype HourMinute = HourMinute(hours: nat, minutes: nat)

  /** `D.M.Y`, the month shifted to 1..12; never empty, so a picked date passes the date check. */
  function FormatDate(m: Moment): (r: string)
    ensures r != ""
  {
    IntToString(m.day) + "." + IntToString(m.month + 1) + "." + IntToString(m.year)
  }

  /** `H:M`; never empty, so a picked time passes the time check. */
  function FormatTime(m: Moment): (r: string)
    ensures r != ""
  {
    IntToString(m.hours) + ":" + IntToString(m.minutes)
  }

  /** Reads `D.M.Y` back, with `M` taken as 1..12 and returned 0-based. */
  function ParseDate(s: string): Option<DayMonthYear> {
    match SplitOnce(s, '.')
    case None => None
    case Some((d, rest)) =>
      match SplitOnce(rest, '.')
      case None => None
      case Some((mo, y)) =>
        match (ParseNat(d), ParseNat(mo), ParseInt(y))
        case (Some(dn), Some(mn), Some(yn)) => if mn >= 1 then Some(DayMonthYear(dn, mn - 1, yn)) else None
        case _ => None
  }

  /** Reads `H:M` back. */
  function ParseTime(s: string): Option<HourMinute> {
    match SplitOnce(s, ':')
    case None => None
    case Some((h, mi)) =>
      match (ParseNat(h), ParseNat(mi))
      case (Some(hn), Some(mn)) => Some(HourMinute(hn, mn))
      case _ => None
  }

  /** The date text loses nothing: day, 0-based month and year read back exactly. */
  lemma FormatDateRoundTrip(m: Moment)
    ensures ParseDate(FormatDate(m)) == Some(DayMonthYear(m.day, m.month, m.year))
  {
    ParseNatToString(m.day);
    ParseNatToString(m.month + 1);
    ParseIntToString(m.year);
    DateTextRoundTrip(IntToString(m.day), IntToString(m.month + 1), IntToString(m.year), m.day, m.month + 1, m.year);
  }

  lemma DateTextRoundTrip(a: string, b: string, c: string, d: nat, mo: nat, y: int)
    requires '.' !in a && '.' !in b
    requires ParseNat(a) == Some(d) && ParseNat(b) == Some(mo) && mo >= 1 && ParseInt(c) == Some(y)
    ensures ParseDate(a + "." + b + "." + c) == Some(DayMonthYear(d, mo - 1, y))
  {
    var rest := b + ['.'] + c;
    assert a + "." + b + "." + c == a + ['.'] + rest;
    SplitOnceAfter(a, '.', rest);
    SplitOnceAfter(b, '.', c);
    ParseDateParts(a + ['.'] + rest, a, rest, b, c);
  }

  lemma ParseDateParts(s: string, d: string, rest: string, mo: string, y: string)
    requires SplitOnce(s, '.') == Some((d, rest)) && SplitOnce(rest, '.') == Some((mo, y))
    requires ParseNat(d).Some? && ParseNat(mo).Some? && ParseNat(mo).value >= 1 && ParseInt(y).Some?
    ensures ParseDate(s) == Some(DayMonthYear(ParseNat(d).value, ParseNat(mo).value - 1, ParseInt(y).value))
  {
  }

  /** The time text loses nothing: hours and minutes read back exactly. */
  lemma FormatTimeRoundTrip(m: Moment)
    ensures ParseTime(FormatTime(m)) == Some(HourMinute(m.hours, m.minutes))
  {
    var a, b := IntToString(m.hours), IntToString(m.minutes);
    assert FormatTime(m) == a + [':'] + b;
    SplitOnceAfter(a, ':', b);
    ParseNatToString(m.hours);
    ParseNatToString(m.minutes);
  }

  /** 5 March 2020 prints as `5.3.2020`: the month shifted by one, the day unpadded. */
  lemma FormatDateExample()
    ensures FormatDate(Moment(2020, 2, 5, 14, 30)) == "5.3.2020"
  {
    assert IntToString(2020) == "2020" by {
      assert NatToString(20) == "20";
      assert NatToString(202) == NatToString(20) + "2";
    }
    assert IntToString(5) == "5" && IntToString(3) == "3";
  }

  /** 14:30 prints as `14:30`, and 9:05 as `9:5`: no padding. */
  lemma FormatTimeExamples()
    ensures FormatTime(Moment(2020, 2, 5, 14, 30)) == "14:30"
    ensures FormatTime(Moment(2020, 2, 5, 9, 5)) == "9:5"
  {
    assert IntToString(14) == "14" by { assert NatToString(14) == "14"; }
    assert IntToString(30) == "30" by { assert NatToString(30) == "30"; }
    assert IntToString(9) == "9" && IntToString(5) == "5";
  }

  /** The text handed to the date library for 5 March 2020 at 14:30. */
  lemma DateTimeTextExample()
    ensures FormatDate(Moment(2020, 2, 5, 14, 30)) + "|" + FormatTime(Moment(2020, 2, 5, 14, 30)) == "5.3.2020|14:30"
  {
    FormatDateExample();
    FormatTimeExamples();
  }
}
