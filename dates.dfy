/** The date-string helpers built on `strptime(..., "%Y%m%d")` and
    `isocalendar()`: the `DateTrans` class of dmutils.py and the `gettime`
    function and `DateTransformer` class of daemontool.py. Each class only
    computes its attributes once in `__init__`, so it is modelled as a
    function from the date string to a record of those attributes, with the
    `ValueError` of `strptime` as the failure case. */
module Dates {
  import opened Wrappers
  import Strs
  import Calendar

  /** The attributes `DateTrans.__init__` sets, all but `timestamp` and
      `to_Tdate`; the date `to_Tdate` holds is the `Calendar.Date` that
      `Calendar.Strptime` returns. */
  datatype DateInfo = DateInfo(
    year: int, week: int, month: int, quarter: int, weekday: int,
    yearweek: string, yearmonth: string, yearquarter: string)

  /** The attributes `DateTransformer.__init__` sets. */
  datatype DateFields = DateFields(
    year: int, week: int, month: int, quarter: int,
    yearweek: string, yearmonth: string, yearquarter: string)

  /** What `gettime` returns: an f-string or an int. */
  datatype TimeValue = Text(text: string) | Number(number: int)

  /** `month // 4 + 1`, the quarter formula both classes use. */
  function Quarter(month: int): (q: int)
    requires 1 <= month <= 12
    ensures 1 <= q <= 4
  {
    month / 4 + 1
  }

  /** The quarter formula groups the months as 1-3, 4-7, 8-11 and 12. */
  lemma QuarterTable(month: int)
    requires 1 <= month <= 12
    ensures Quarter(month) == 1 <==> month <= 3
    ensures Quarter(month) == 2 <==> 4 <= month <= 7
    ensures Quarter(month) == 3 <==> 8 <= month <= 11
    ensures Quarter(month) == 4 <==> month == 12
  {
  }

  /** The zero padding of `DateTrans`: `str(n)` when it has two digits, and
      `"0" + str(n)` when it has one. */
  function ZeroPad2(n: nat): (r: string)
    requires n < 100
    ensures |r| == 2 && Strs.IsDigit(r[0]) && Strs.IsDigit(r[1])
    ensures Strs.DigitsValue(r) == n
  {
    var t := Strs.NatToString(n);
    Strs.NatToStringLength(n);
    Strs.NatToStringRoundTrip(n);
    if |t| == 2 then
      assert Strs.DigitsValue(t) == Strs.DigitsValue(t[..1]) * 10 + Strs.DigitValue(t[1]);
      t
    else if |t| == 1 then
      var r := "0" + t;
      assert r[..1] == "0" && r[1] == t[0] && t[..0] == [];
      r
    else
      assert false; ""
  }

  /** The ISO calendar of a parsed date, with the weekly facts a caller needs. */
  function IsoOf(d: Calendar.Date): (iso: Calendar.IsoDate)
    requires Calendar.ValidDate(d)
    ensures Calendar.IsIsoWeekDate(Calendar.Ordinal(d.year, d.month, d.day), iso)
    ensures iso.weekday == Calendar.IsoWeekday(Calendar.Ordinal(d.year, d.month, d.day))
    ensures 1 <= iso.week <= 53
  {
    Calendar.IsoCalendarCorrect(d.year, d.month, d.day);
    Calendar.IsoCalendar(d.year, d.month, d.day)
  }

  /** `DateTrans(datestring)`: drop every `-`, parse `%Y%m%d`, read the ISO
      year, week and weekday, and spell the zero-padded labels. */
  function DateTrans(datestring: string): (r: Result<DateInfo, Calendar.ParseError>)
    ensures var p := Calendar.Strptime(Strs.RemoveAll(datestring, "-"));
      && (r.Success? <==> p.Success?)
      && (r.Failure? ==> r.error == p.error)
      && (r.Success? ==>
            var d := p.value;
            && Calendar.IsIsoWeekDate(Calendar.Ordinal(d.year, d.month, d.day),
                                      Calendar.IsoDate(r.value.year, r.value.week, r.value.weekday))
            && r.value.weekday == Calendar.IsoWeekday(Calendar.Ordinal(d.year, d.month, d.day))
            && r.value.month == d.month && r.value.quarter == Quarter(d.month))
    ensures r.Success? ==>
      && r.value.yearweek == Strs.IntToString(r.value.year) + "W" + ZeroPad2(r.value.week)
      && r.value.yearmonth == Strs.IntToString(r.value.year) + "M" + ZeroPad2(r.value.month)
      && r.value.yearquarter == Strs.IntToString(r.value.year) + "Q" + Strs.IntToString(r.value.quarter)
  {
    match Calendar.Strptime(Strs.RemoveAll(datestring, "-"))
    case Failure(e) => Failure(e)
    case Success(d) =>
      var iso := IsoOf(d);
      var quarter := Quarter(d.month);
      Success(DateInfo(
        iso.year, iso.week, d.month, quarter, iso.weekday,
        Strs.IntToString(iso.year) + "W" + ZeroPad2(iso.week),
        Strs.IntToString(iso.year) + "M" + ZeroPad2(d.month),
        Strs.IntToString(iso.year) + "Q" + Strs.IntToString(quarter)))
  }

  /** `DateTransformer(datestring)`: the same parse, with unpadded labels. */
  function DateTransformer(datestring: string): (r: Result<DateFields, Calendar.ParseError>)
    ensures var p := Calendar.Strptime(Strs.RemoveAll(datestring, "-"));
      && (r.Success? <==> p.Success?)
      && (r.Failure? ==> r.error == p.error)
      && (r.Success? ==>
            var d := p.value;
            && Calendar.IsIsoWeekDate(Calendar.Ordinal(d.year, d.month, d.day),
                                      Calendar.IsoCalendar(d.year, d.month, d.day))
            && r.value.year == Calendar.IsoCalendar(d.year, d.month, d.day).year
            && r.value.week == Calendar.IsoCalendar(d.year, d.month, d.day).week
            && r.value.month == d.month && r.value.quarter == Quarter(d.month))
    ensures r.Success? ==>
      && r.value.yearweek == Strs.IntToString(r.value.year) + "W" + Strs.IntToString(r.value.week)
      && r.value.yearmonth == Strs.IntToString(r.value.year) + "M" + Strs.IntToString(r.value.month)
      && r.value.yearquarter == Strs.IntToString(r.value.year) + "Q" + Strs.IntToString(r.value.quarter)
  {
    match Calendar.Strptime(Strs.RemoveAll(datestring, "-"))
    case Failure(e) => Failure(e)
    case Success(d) =>
      var iso := IsoOf(d);
      var quarter := Quarter(d.month);
      Success(DateFields(
        iso.year, iso.week, d.month, quarter,
        Strs.IntToString(iso.year) + "W" + Strs.IntToString(iso.week),
        Strs.IntToString(iso.year) + "M" + Strs.IntToString(d.month),
        Strs.IntToString(iso.year) + "Q" + Strs.IntToString(quarter)))
  }

  /** `gettime(datestring, onlyweek, onlyyear)`: no `-` removal; the
      unpadded `"{year}W{week}"` by default, the week or the year alone under
      one flag, and 0 when both are set. */
  function GetTime(datestring: string, onlyweek: bool, onlyyear: bool): (r: Result<TimeValue, Calendar.ParseError>)
    ensures var p := Calendar.Strptime(datestring);
      && (r.Failure? <==> p.Failure?)
      && (r.Failure? ==> r.error == p.error)
      && (r.Success? ==>
            var iso := Calendar.IsoCalendar(p.value.year, p.value.month, p.value.day);
            && (!onlyweek && !onlyyear ==> r.value == Text(Strs.IntToString(iso.year) + "W" + Strs.IntToString(iso.week)))
            && (onlyweek && !onlyyear ==> r.value == Number(iso.week))
            && (!onlyweek && onlyyear ==> r.value == Number(iso.year))
            && (onlyweek && onlyyear ==> r.value == Number(0)))
  {
    match Calendar.Strptime(datestring)
    case Failure(e) => Failure(e)
    case Success(d) =>
      var iso := IsoOf(d);
      if !onlyweek && !onlyyear then Success(Text(Strs.IntToString(iso.year) + "W" + Strs.IntToString(iso.week)))
      else if onlyweek && !onlyyear then Success(Number(iso.week))
      else if !onlyweek && onlyyear then Success(Number(iso.year))
      else Success(Number(0))
  }

  /** The two classes agree on every number they compute, and on the padded
      labels whenever the week and month already have two digits. */
  lemma DateTransAgreesWithTransformer(datestring: string)
    ensures DateTrans(datestring).Success? <==> DateTransformer(datestring).Success?
    ensures DateTrans(datestring).Success? ==>
      var a, b := DateTrans(datestring).value, DateTransformer(datestring).value;
      && a.year == b.year && a.week == b.week && a.month == b.month && a.quarter == b.quarter
      && a.yearquarter == b.yearquarter
      && (a.week >= 10 ==> a.yearweek == b.yearweek)
      && (a.month >= 10 ==> a.yearmonth == b.yearmonth)
  {
    match Calendar.Strptime(Strs.RemoveAll(datestring, "-"))
    case Failure(_) =>
    case Success(d) =>
      var a, b := DateTrans(datestring).value, DateTransformer(datestring).value;
      if a.week >= 10 {
        Strs.NatToStringLength(a.week);
      }
      if a.month >= 10 {
        Strs.NatToStringLength(a.month);
      }
  }

  /** On a string without `-`, `gettime` reads the same ISO year and week as
      `DateTransformer`, and its default result is that class's `yearweek`. */
  lemma GetTimeAgreesWithTransformer(datestring: string)
    requires '-' !in datestring
    ensures GetTime(datestring, false, false).Success? <==> DateTransformer(datestring).Success?
    ensures DateTransformer(datestring).Success? ==>
      && GetTime(datestring, false, false).value == Text(DateTransformer(datestring).value.yearweek)
      && GetTime(datestring, true, false).value == Number(DateTransformer(datestring).value.week)
      && GetTime(datestring, false, true).value == Number(DateTransformer(datestring).value.year)
  {
    Strs.ContainsChar(datestring, '-');
    Strs.RemoveAllAbsent(datestring, "-");
  }

  /** The pieces of the example's labels. */
  lemma ExampleLabels()
    ensures Strs.IntToString(2023) == "2023" && Strs.IntToString(2) == "2"
    ensures ZeroPad2(30) == "30" && ZeroPad2(7) == "07"
    ensures Strs.IntToString(30) == "30" && Strs.IntToString(7) == "7"
  {
    assert Strs.NatToString(30) == "30";
    assert Strs.NatToString(7) == "7";
  }

  /** Deleting the dashes of the example. */
  lemma ExampleDashes(s: string)
    requires s == "2023-07-27"
    ensures Strs.RemoveAll(s, "-") == "20230727"
  {
    assert s == "2023" + ['-'] + ("07" + ['-'] + "27");
    Strs.RemoveAllCharAfter("2023", '-', "07" + ['-'] + "27");
    Strs.RemoveAllCharAfter("07", '-', "27");
    Strs.ContainsChar("27", '-');
    Strs.RemoveAllAbsent("27", "-");
    DashesLiteral();
  }

  /** A literal concatenation on its own, so that the example proofs
      around it stay small. */
  lemma DashesLiteral()
    ensures "2023" + ("07" + "27") == "20230727"
  {
  }

  /** The example's date string parses to 27 July 2023, which is the
      Thursday of ISO week 30. */
  lemma ExampleParse(s: string)
    requires s == "2023-07-27"
    ensures Calendar.Strptime(Strs.RemoveAll(s, "-")) == Success(Calendar.Date(2023, 7, 27))
    ensures IsoOf(Calendar.Date(2023, 7, 27)) == Calendar.IsoDate(2023, 30, 4)
  {
    ExampleDashes(s);
    Calendar.StrptimeExample();
    Calendar.IsoCalendarExample();
  }

  /** The example's labels, spelled out: the literal concatenations kept
      apart so that the example proofs stay small. */
  lemma ExampleLiterals()
    ensures "2023" + "W" + "30" == "2023W30" && "2023" + "Q" + "2" == "2023Q2"
    ensures "2023" + "M" + "07" == "2023M07" && "2023" + "M" + "7" == "2023M7"
  {
  }

  /** `DateTrans` of a string that parses to `d`. */
  lemma DateTransParsed(s: string, d: Calendar.Date)
    requires Calendar.Strptime(Strs.RemoveAll(s, "-")) == Success(d)
    ensures DateTrans(s) == Success(DateInfo(
      IsoOf(d).year, IsoOf(d).week, d.month, Quarter(d.month), IsoOf(d).weekday,
      Strs.IntToString(IsoOf(d).year) + "W" + ZeroPad2(IsoOf(d).week),
      Strs.IntToString(IsoOf(d).year) + "M" + ZeroPad2(d.month),
      Strs.IntToString(IsoOf(d).year) + "Q" + Strs.IntToString(Quarter(d.month))))
  {
  }

  /** `DateTransformer` of a string that parses to `d`. */
  lemma DateTransformerParsed(s: string, d: Calendar.Date)
    requires Calendar.Strptime(Strs.RemoveAll(s, "-")) == Success(d)
    ensures DateTransformer(s) == Success(DateFields(
      IsoOf(d).year, IsoOf(d).week, d.month, Quarter(d.month),
      Strs.IntToString(IsoOf(d).year) + "W" + Strs.IntToString(IsoOf(d).week),
      Strs.IntToString(IsoOf(d).year) + "M" + Strs.IntToString(d.month),
      Strs.IntToString(IsoOf(d).year) + "Q" + Strs.IntToString(Quarter(d.month))))
  {
  }

  /** The example of the `DateTrans` docstring: 27 July 2023 is the Thursday
      of ISO week 30, in quarter 2 by the formula. */
  lemma DateTransExample(s: string)
    requires s == "2023-07-27"
    ensures DateTrans(s) == Success(DateInfo(2023, 30, 7, 2, 4, "2023W30", "2023M07", "2023Q2"))
  {
    var d := Calendar.Date(2023, 7, 27);
    ExampleParse(s);
    DateTransParsed(s, d);
    ExampleLabels();
    ExampleLiterals();
  }

  /** Near the turn of the year the attributes are the ISO year's, not the
      calendar year's: 30 December 2024 is in week 1 of ISO year 2025, so
      `year` is 2025 and the month label is "2025M12". */
  lemma DateTransIsoYear(s: string)
    requires s == "20241230"
    ensures DateTrans(s) == Success(DateInfo(2025, 1, 12, 4, 1, "2025W01", "2025M12", "2025Q4"))
  {
    var d := Calendar.Date(2024, 12, 30);
    Strs.ContainsChar(s, '-');
    Strs.RemoveAllAbsent(s, "-");
    Calendar.StrptimeYearEnd();
    Calendar.IsoCalendarYearEnd();
    DateTransParsed(s, d);
    YearEndLabels();
  }

  /** The labels of 30 December 2024, spelled out apart so that the example
      proof stays small. */
  lemma YearEndLabels()
    ensures Strs.IntToString(2025) + "W" + ZeroPad2(1) == "2025W01"
    ensures Strs.IntToString(2025) + "M" + ZeroPad2(12) == "2025M12"
    ensures Strs.IntToString(2025) + "Q" + Strs.IntToString(Quarter(12)) == "2025Q4"
  {
    assert Strs.NatToString(2025) == "2025";
    assert Strs.NatToString(4) == "4";
    assert Strs.NatToString(1) == "1" && Strs.NatToString(12) == "12";
  }

  /** The docstring's example builds a `DateTransformer`, whose labels are
      not padded: its month label is "2023M7", not the "2023M07" of
      `DateTrans`. */
  lemma DateTransformerExample(s: string)
    requires s == "2023-07-27"
    ensures DateTransformer(s) == Success(DateFields(2023, 30, 7, 2, "2023W30", "2023M7", "2023Q2"))
  {
    var d := Calendar.Date(2023, 7, 27);
    ExampleParse(s);
    DateTransformerParsed(s, d);
    ExampleLabels();
    ExampleLiterals();
  }

  /** Unlike the two classes, `gettime` does not drop `-`: a dashed date does
      not match the pattern at all. */
  lemma GetTimeDashed()
    ensures GetTime("2023-07-27", false, false) == Failure(Calendar.NoMatch)
  {
    assert Calendar.MonthMatches("2023-07-27", 4) == [];
  }
}
