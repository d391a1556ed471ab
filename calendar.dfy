/** The two library calls the date helpers rest on: `datetime.strptime(s,
    "%Y%m%d")` and `date.isocalendar()` / `date.isoweekday()`, written out on
    the proleptic Gregorian day ordinal (0001-01-01 is day 1, a Monday) the
    way CPython's datetime module computes them. */
module Calendar {
  import opened Wrappers
  import Strs

  predicate IsLeap(y: int) {
    y % 4 == 0 && (y % 100 != 0 || y % 400 == 0)
  }

  function DaysInYear(y: int): int {
    if IsLeap(y) then 366 else 365
  }

  function DaysInMonth(y: int, m: int): int
    requires 1 <= m <= 12
  {
    if m == 2 then (if IsLeap(y) then 29 else 28)
    else if m == 4 || m == 6 || m == 9 || m == 11 then 30
    else 31
  }

  /** Days of year `y` before the first of month `m` (CPython's `_days_before_month`). */
  function DaysBeforeMonth(y: int, m: int): int
    requires 1 <= m <= 12
  {
    var before := match m
      case 1 => 0 case 2 => 31 case 3 => 59 case 4 => 90 case 5 => 120 case 6 => 151
      case 7 => 181 case 8 => 212 case 9 => 243 case 10 => 273 case 11 => 304 case _ => 334;
    before + (if m > 2 && IsLeap(y) then 1 else 0)
  }

  /** Days before January 1 of year `y` (CPython's `_days_before_year`; `/` floors for a positive divisor). */
  function DaysBeforeYear(y: int): int {
    var p := y - 1;
    p * 365 + p / 4 - p / 100 + p / 400
  }

  /** The day ordinal of `y-m-d` (CPython's `_ymd2ord`). */
  function Ordinal(y: int, m: int, d: int): int
    requires 1 <= m <= 12
  {
    DaysBeforeYear(y) + DaysBeforeMonth(y, m) + d
  }

  datatype Date = Date(year: int, month: int, day: int)

  /** What `datetime` accepts: MINYEAR..MAXYEAR, a month, a day of that month. */
  predicate ValidDate(d: Date) {
    1 <= d.year <= 9999 && 1 <= d.month <= 12 && 1 <= d.day <= DaysInMonth(d.year, d.month)
  }

  /** `isoweekday()`: `toordinal() % 7 or 7`, Monday is 1 and Sunday 7. */
  function IsoWeekday(ord: int): (w: int)
    ensures 1 <= w <= 7 && (w - ord) % 7 == 0
  {
    if ord % 7 == 0 then 7 else ord % 7
  }

  /** CPython's `_isoweek1monday(year)`: the Monday starting ISO week 1, a
      Monday within three days of January 1. */
  function Week1Monday(y: int): (r: int)
    ensures r % 7 == 1
    ensures Ordinal(y, 1, 1) - 3 <= r <= Ordinal(y, 1, 1) + 3
  {
    FirstMondayShape(Ordinal(y, 1, 1));
    FirstMonday(Ordinal(y, 1, 1))
  }

  /** The body of `_isoweek1monday` for January 1 = day `firstday`: the Monday
      on or before it if that day is Monday to Thursday, else the next Monday. */
  function FirstMonday(firstday: int): int {
    var firstweekday := (firstday + 6) % 7;
    var week1monday := firstday - firstweekday;
    if firstweekday > 3 then week1monday + 7 else week1monday
  }

  /** ISO 8601 (section 4.1.4 of ISO 8601:2004, "calendar week"): week 1 of a
      year is the week, Monday to Sunday, that holds January 4. This is the
      reference the computation above is checked against. */
  function WeekOneMonday(y: int): int {
    var jan4 := Ordinal(y, 1, 4);
    jan4 - (IsoWeekday(jan4) - 1)
  }

  datatype IsoDate = IsoDate(year: int, week: int, weekday: int)

  /** Day `ord` is weekday `iso.weekday` of week `iso.week` of ISO year
      `iso.year`: it lies in that year's run of weeks, at that offset. */
  predicate IsIsoWeekDate(ord: int, iso: IsoDate) {
    && 1 <= iso.weekday <= 7 && 1 <= iso.week
    && ord == WeekOneMonday(iso.year) + 7 * (iso.week - 1) + (iso.weekday - 1)
    && ord < WeekOneMonday(iso.year + 1)
  }

  /** `date(y, m, d).isocalendar()`, CPython's algorithm. */
  function IsoCalendar(y: int, m: int, d: int): (r: IsoDate)
    requires 1 <= m <= 12
    ensures y - 1 <= r.year <= y + 1 && 1 <= r.weekday <= 7
    ensures r.weekday == IsoWeekday(Ordinal(y, m, d))
  {
    var today := Ordinal(y, m, d);
    var w1 := Week1Monday(y);
    WeekdayFromMonday(today, w1);
    var week, day := (today - w1) / 7, (today - w1) % 7;
    if week < 0 then
      var w0 := Week1Monday(y - 1);
      WeekdayFromMonday(today, w0);
      IsoDate(y - 1, (today - w0) / 7 + 1, (today - w0) % 7 + 1)
    else if week >= 52 && today >= Week1Monday(y + 1) then
      IsoDate(y + 1, 1, day + 1)
    else
      IsoDate(y, week + 1, day + 1)
  }

  /** Counting days from any Monday gives the weekday. */
  lemma WeekdayFromMonday(today: int, w: int)
    requires w % 7 == 1
    ensures (today - w) % 7 + 1 == IsoWeekday(today)
  {
    var q := w / 7;
    assert today - w == (today - 1) - 7 * q;
    ModShift(today - 1, q);
  }

  /** Shifting by whole weeks keeps the remainder modulo 7. */
  lemma ModShift(a: int, q: int)
    ensures (a - 7 * q) % 7 == a % 7
  {
  }

  /** Division by 4, 100 and 400 steps up by one exactly at a multiple. */
  lemma DivStep4(p: int)
    ensures (p + 1) / 4 == p / 4 + (if (p + 1) % 4 == 0 then 1 else 0)
  {
    var q, r := p / 4, p % 4;
    if r == 3 { assert p + 1 == 4 * (q + 1); } else { assert p + 1 == 4 * q + (r + 1); }
  }

  lemma DivStep100(p: int)
    ensures (p + 1) / 100 == p / 100 + (if (p + 1) % 100 == 0 then 1 else 0)
  {
    var q, r := p / 100, p % 100;
    if r == 99 { assert p + 1 == 100 * (q + 1); } else { assert p + 1 == 100 * q + (r + 1); }
  }

  lemma DivStep400(p: int)
    ensures (p + 1) / 400 == p / 400 + (if (p + 1) % 400 == 0 then 1 else 0)
  {
    var q, r := p / 400, p % 400;
    if r == 399 { assert p + 1 == 400 * (q + 1); } else { assert p + 1 == 400 * q + (r + 1); }
  }

  /** A multiple of 400 is one of 100, and a multiple of 100 is one of 4. */
  lemma LeapCascade(y: int)
    ensures y % 400 == 0 ==> y % 100 == 0
    ensures y % 100 == 0 ==> y % 4 == 0
  {
    if y % 400 == 0 {
      var q := y / 400;
      assert y == 400 * q;
      MultipleMod100(4 * q);
    }
    if y % 100 == 0 {
      var q := y / 100;
      assert y == 100 * q;
      MultipleMod4(25 * q);
    }
  }

  /** Remainders of constant multiples, stated apart so that no proof
      needs nonlinear arithmetic. */
  lemma MultipleMod100(k: int)
    ensures (100 * k) % 100 == 0
  {
  }

  lemma MultipleMod4(k: int)
    ensures (4 * k) % 4 == 0
  {
  }

  lemma DaysBeforeYearStep(y: int)
    ensures DaysBeforeYear(y + 1) == DaysBeforeYear(y) + DaysInYear(y)
  {
    var p := y - 1;
    DivStep4(p);
    DivStep100(p);
    DivStep400(p);
    LeapCascade(y);
    assert y * 365 == p * 365 + 365;
  }

  /** A valid date lies in its year: from January 1 to the day before next January 1. */
  lemma OrdinalInYear(y: int, m: int, d: int)
    requires 1 <= m <= 12 && 1 <= d <= DaysInMonth(y, m)
    ensures Ordinal(y, 1, 1) <= Ordinal(y, m, d) < Ordinal(y + 1, 1, 1)
  {
    DaysBeforeYearStep(y);
  }

  lemma FirstMondayShape(f: int)
    ensures FirstMonday(f) % 7 == 1
    ensures f - 3 <= FirstMonday(f) <= f + 3
    ensures FirstMonday(f) == (f + 3) - (IsoWeekday(f + 3) - 1)
  {
  }

  /** CPython's week-1 Monday is the ISO 8601 one: the Monday of the week
      holding January 4. */
  lemma Week1MondayIsWeekOneMonday(y: int)
    ensures Week1Monday(y) == WeekOneMonday(y)
  {
    FirstMondayShape(Ordinal(y, 1, 1));
  }

  lemma FirstMondayGap(f: int, g: int)
    requires g - f == 365 || g - f == 366
    ensures FirstMonday(g) - FirstMonday(f) == 364 || FirstMonday(g) - FirstMonday(f) == 371
  {
    FirstMondayShape(f);
    FirstMondayShape(g);
  }

  /** Consecutive ISO years are 52 or 53 weeks long. */
  lemma Week1MondayGap(y: int)
    ensures Week1Monday(y + 1) - Week1Monday(y) == 364 || Week1Monday(y + 1) - Week1Monday(y) == 371
  {
    DaysBeforeYearStep(y);
    FirstMondayGap(Ordinal(y, 1, 1), Ordinal(y + 1, 1, 1));
  }

  lemma {:induction false} WeekOneMondayMonotone(y1: int, y2: int)
    requires y1 < y2
    ensures WeekOneMonday(y1 + 1) <= WeekOneMonday(y2)
    decreases y2 - y1
  {
    if y1 + 1 < y2 {
      WeekOneMondayMonotone(y1 + 1, y2);
      Week1MondayGap(y1 + 1);
      Week1MondayIsWeekOneMonday(y1 + 1);
      Week1MondayIsWeekOneMonday(y1 + 2);
    }
  }

  /** Week-numbering years do not overlap: every day of an earlier ISO
      year comes before every day of a later one. */
  lemma IsoYearsOrdered(ord1: int, a: IsoDate, ord2: int, b: IsoDate)
    requires IsIsoWeekDate(ord1, a) && IsIsoWeekDate(ord2, b) && a.year < b.year
    ensures ord1 < ord2
  {
    WeekOneMondayMonotone(a.year, b.year);
  }

  /** Within one ISO year, the offset from week-1 Monday fixes week and weekday. */
  lemma WeekOffsetUnique(wa: int, da: int, wb: int, db: int)
    requires 1 <= da <= 7 && 1 <= db <= 7
    requires 7 * (wa - 1) + (da - 1) == 7 * (wb - 1) + (db - 1)
    ensures wa == wb && da == db
  {
  }

  /** The ISO week date of a day is unique. */
  lemma IsoWeekDateUnique(ord: int, a: IsoDate, b: IsoDate)
    requires IsIsoWeekDate(ord, a) && IsIsoWeekDate(ord, b)
    ensures a == b
  {
    if a.year < b.year {
      IsoYearsOrdered(ord, a, ord, b);
    } else if b.year < a.year {
      IsoYearsOrdered(ord, b, ord, a);
    } else {
      WeekOffsetUnique(a.week, a.weekday, b.week, b.weekday);
    }
  }

  /** `isocalendar()`'s three branches on day `today` of Gregorian year `y`,
      given CPython's week-1 Mondays `w0`, `w1`, `w2` of years `y-1`, `y`, `y+1`. */
  function IsoBranches(y: int, today: int, w0: int, w1: int, w2: int): IsoDate {
    if (today - w1) / 7 < 0 then IsoDate(y - 1, (today - w0) / 7 + 1, (today - w0) % 7 + 1)
    else if (today - w1) / 7 >= 52 && today >= w2 then IsoDate(y + 1, 1, (today - w1) % 7 + 1)
    else IsoDate(y, (today - w1) / 7 + 1, (today - w1) % 7 + 1)
  }

  lemma IsoCalendarBranches(y: int, m: int, d: int)
    requires 1 <= m <= 12
    ensures IsoCalendar(y, m, d) == IsoBranches(y, Ordinal(y, m, d), Week1Monday(y - 1), Week1Monday(y), Week1Monday(y + 1))
  {
  }

  /** A day less than `bound` days after a Monday `w` is in week
      `(today - w) / 7 + 1` counted from `w`, on weekday `(today - w) % 7 + 1`. */
  lemma WeekOffset(today: int, w: int, bound: int)
    requires w % 7 == 1 && w <= today < w + bound && bound <= 371
    ensures 1 <= (today - w) / 7 + 1 <= 53
    ensures (today - w) % 7 + 1 == IsoWeekday(today)
    ensures today == w + 7 * ((today - w) / 7) + (today - w) % 7
  {
  }

  /** The remainder of a week count plus an offset is the offset. */
  lemma ModSeven(k: int, x: int)
    requires 0 <= x < 7
    ensures (7 * k + x) % 7 == x
  {
  }

  /** A day in the first three days after the Monday `w2`, an exact number of
      weeks after `w1`, has offset `today - w2` from `w1` within its week. */
  lemma NextYearOffset(today: int, w1: int, w2: int)
    requires w1 % 7 == 1 && w2 % 7 == 1 && (w2 - w1 == 364 || w2 - w1 == 371)
    requires w2 <= today < w2 + 3
    ensures (today - w1) % 7 == today - w2 && today - w2 + 1 == IsoWeekday(today)
  {
    var k := (w2 - w1) / 7;
    assert today - w1 == 7 * k + (today - w2);
    ModSeven(k, today - w2);
    WeekOffset(today, w2, 3);
  }

  /** The branch taken lands in the ISO year whose run of weeks holds `today`,
      provided the Mondays are 52 or 53 weeks apart and `today` lies between
      January 1 of `y` and of `y+1`, each within three days of its Monday. */
  lemma IsoBranchesCases(y: int, today: int, w0: int, w1: int, w2: int, w3: int)
    requires w0 % 7 == 1 && w1 % 7 == 1 && w2 % 7 == 1
    requires w1 - w0 == 364 || w1 - w0 == 371
    requires w2 - w1 == 364 || w2 - w1 == 371
    requires w3 - w2 == 364 || w3 - w2 == 371
    requires w1 - 3 <= today < w2 + 3
    ensures var r := IsoBranches(y, today, w0, w1, w2);
      && 1 <= r.weekday <= 7 && 1 <= r.week <= 53 && r.weekday == IsoWeekday(today)
      && ((r.year == y - 1 && today == w0 + 7 * (r.week - 1) + (r.weekday - 1) && today < w1)
         || (r.year == y && today == w1 + 7 * (r.week - 1) + (r.weekday - 1) && today < w2)
         || (r.year == y + 1 && today == w2 + 7 * (r.week - 1) + (r.weekday - 1) && today < w3))
  {
    if today < w1 {
      WeekOffset(today, w0, w1 - w0);
    } else if (today - w1) / 7 >= 52 && today >= w2 {
      NextYearOffset(today, w1, w2);
    } else {
      WeekOffset(today, w1, w2 - w1);
    }
  }

  /** The premises of `IsoBranchesCases` hold for a valid date. */
  lemma IsoCalendarPremises(y: int, m: int, d: int)
    requires 1 <= m <= 12 && 1 <= d <= DaysInMonth(y, m)
    ensures Week1Monday(y - 1) % 7 == 1 && Week1Monday(y) % 7 == 1 && Week1Monday(y + 1) % 7 == 1
    ensures Week1Monday(y) - 3 <= Ordinal(y, m, d) < Week1Monday(y + 1) + 3
  {
    OrdinalInYear(y, m, d);
  }

  lemma IsoWeekDateOf(today: int, yr: int, week: int, weekday: int, wa: int, wb: int)
    requires wa == WeekOneMonday(yr) && wb == WeekOneMonday(yr + 1)
    requires 1 <= weekday <= 7 && 1 <= week
    requires today == wa + 7 * (week - 1) + (weekday - 1) && today < wb
    ensures IsIsoWeekDate(today, IsoDate(yr, week, weekday))
  {
  }

  /** The three branches, on any day within three days of the week-1 Mondays
      of its year and the next. */
  lemma IsoBranchesCorrect(y: int, today: int, w0: int, w1: int, w2: int, w3: int)
    requires w0 == Week1Monday(y - 1) && w1 == Week1Monday(y) && w2 == Week1Monday(y + 1) && w3 == Week1Monday(y + 2)
    requires w1 - 3 <= today < w2 + 3
    ensures IsIsoWeekDate(today, IsoBranches(y, today, w0, w1, w2))
    ensures IsoBranches(y, today, w0, w1, w2).weekday == IsoWeekday(today)
    ensures IsoBranches(y, today, w0, w1, w2).week <= 53
  {
    MondayFacts(y, w0, w1, w2, w3);
    IsoBranchesCases(y, today, w0, w1, w2, w3);
    MondaysAreIso(y, w0, w1, w2, w3);
    IsoWeekDateOfCases(y, today, IsoBranches(y, today, w0, w1, w2), w0, w1, w2, w3);
  }

  /** The premises `IsoBranchesCases` needs of four consecutive week-1 Mondays. */
  lemma MondayFacts(y: int, w0: int, w1: int, w2: int, w3: int)
    requires w0 == Week1Monday(y - 1) && w1 == Week1Monday(y) && w2 == Week1Monday(y + 1) && w3 == Week1Monday(y + 2)
    ensures w0 % 7 == 1 && w1 % 7 == 1 && w2 % 7 == 1
    ensures w1 - w0 == 364 || w1 - w0 == 371
    ensures w2 - w1 == 364 || w2 - w1 == 371
    ensures w3 - w2 == 364 || w3 - w2 == 371
  {
    Week1MondayGap(y - 1);
    Week1MondayGap(y);
    Week1MondayGap(y + 1);
  }

  lemma MondaysAreIso(y: int, w0: int, w1: int, w2: int, w3: int)
    requires w0 == Week1Monday(y - 1) && w1 == Week1Monday(y) && w2 == Week1Monday(y + 1) && w3 == Week1Monday(y + 2)
    ensures w0 == WeekOneMonday(y - 1) && w1 == WeekOneMonday(y) && w2 == WeekOneMonday(y + 1) && w3 == WeekOneMonday(y + 2)
  {
    Week1MondayIsWeekOneMonday(y - 1);
    Week1MondayIsWeekOneMonday(y);
    Week1MondayIsWeekOneMonday(y + 1);
    Week1MondayIsWeekOneMonday(y + 2);
  }

  /** Whichever of the three ISO years holds the day, its week date follows. */
  lemma IsoWeekDateOfCases(y: int, today: int, r: IsoDate, w0: int, w1: int, w2: int, w3: int)
    requires w0 == WeekOneMonday(y - 1) && w1 == WeekOneMonday(y) && w2 == WeekOneMonday(y + 1) && w3 == WeekOneMonday(y + 2)
    requires 1 <= r.weekday <= 7 && 1 <= r.week
    requires || (r.year == y - 1 && today == w0 + 7 * (r.week - 1) + (r.weekday - 1) && today < w1)
             || (r.year == y && today == w1 + 7 * (r.week - 1) + (r.weekday - 1) && today < w2)
             || (r.year == y + 1 && today == w2 + 7 * (r.week - 1) + (r.weekday - 1) && today < w3)
    ensures IsIsoWeekDate(today, r)
  {
    if r.year == y - 1 {
      assert r == IsoDate(y - 1, r.week, r.weekday);
      IsoWeekDateOf(today, y - 1, r.week, r.weekday, w0, w1);
    } else if r.year == y {
      assert r == IsoDate(y, r.week, r.weekday);
      IsoWeekDateOf(today, y, r.week, r.weekday, w1, w2);
    } else {
      assert r == IsoDate(y + 1, r.week, r.weekday);
      IsoWeekDateOf(today, y + 1, r.week, r.weekday, w2, w3);
    }
  }

  /** `isocalendar()` gives the ISO 8601 week date of the day, its weekday is
      `isoweekday()`, and no ISO year has more than 53 weeks. */
  lemma IsoCalendarCorrect(y: int, m: int, d: int)
    requires 1 <= m <= 12 && 1 <= d <= DaysInMonth(y, m)
    ensures IsIsoWeekDate(Ordinal(y, m, d), IsoCalendar(y, m, d))
    ensures IsoCalendar(y, m, d).weekday == IsoWeekday(Ordinal(y, m, d))
    ensures IsoCalendar(y, m, d).week <= 53
  {
    IsoCalendarPremises(y, m, d);
    IsoCalendarBranches(y, m, d);
    IsoBranchesCorrect(y, Ordinal(y, m, d), Week1Monday(y - 1), Week1Monday(y), Week1Monday(y + 1), Week1Monday(y + 2));
  }

  /** Parsing errors `strptime` raises as ValueError. */
  datatype ParseError =
    | NoMatch          // "time data ... does not match format '%Y%m%d'"
    | UnconvertedData  // "unconverted data remains: ..."
    | DateOutOfRange   // "day is out of range for month", "year 0 is out of range"

  predicate InRange(c: char, lo: char, hi: char) {
    lo <= c <= hi
  }

  /** The matches of the `%m` pattern `1[0-2]|0[1-9]|[1-9]` at index `i`, in
      the order the regular expression tries them: (value, length). */
  function MonthMatches(s: string, i: nat): (r: seq<(int, nat)>)
    ensures forall k :: 0 <= k < |r| ==> 1 <= r[k].0 <= 12 && 1 <= r[k].1 && i + r[k].1 <= |s|
  {
    (if i + 1 < |s| && s[i] == '1' && InRange(s[i + 1], '0', '2') then [(10 + Strs.DigitValue(s[i + 1]), 2)] else [])
    + (if i + 1 < |s| && s[i] == '0' && InRange(s[i + 1], '1', '9') then [(Strs.DigitValue(s[i + 1]), 2)] else [])
    + (if i < |s| && InRange(s[i], '1', '9') then [(Strs.DigitValue(s[i]), 1)] else [])
  }

  /** The matches of the `%d` pattern `3[01]|[12]\d|0[1-9]|[1-9]| [1-9]` at
      index `i`, in the order the regular expression tries them. */
  function DayMatches(s: string, i: nat): (r: seq<(int, nat)>)
    ensures forall k :: 0 <= k < |r| ==> 1 <= r[k].0 <= 31 && 1 <= r[k].1 && i + r[k].1 <= |s|
  {
    (if i + 1 < |s| && s[i] == '3' && InRange(s[i + 1], '0', '1') then [(30 + Strs.DigitValue(s[i + 1]), 2)] else [])
    + (if i + 1 < |s| && InRange(s[i], '1', '2') && Strs.IsDigit(s[i + 1])
       then [(10 * Strs.DigitValue(s[i]) + Strs.DigitValue(s[i + 1]), 2)] else [])
    + (if i + 1 < |s| && s[i] == '0' && InRange(s[i + 1], '1', '9') then [(Strs.DigitValue(s[i + 1]), 2)] else [])
    + (if i < |s| && InRange(s[i], '1', '9') then [(Strs.DigitValue(s[i]), 1)] else [])
    + (if i + 1 < |s| && s[i] == ' ' && InRange(s[i + 1], '1', '9') then [(Strs.DigitValue(s[i + 1]), 2)] else [])
  }

  /** Backtracking over the month alternatives: the first month match after
      which some day alternative matches, with the first such day. */
  function FirstMonthDay(s: string, year: int, months: seq<(int, nat)>): (r: Option<(Date, nat)>)
    requires forall k :: 0 <= k < |months| ==> 1 <= months[k].0 <= 12
    ensures r.Some? ==> 1 <= r.value.0.month <= 12 && 1 <= r.value.0.day <= 31 && r.value.0.year == year
  {
    if months == [] then None
    else
      var days := DayMatches(s, 4 + months[0].1);
      if days != [] then Some((Date(year, months[0].0, days[0].0), 4 + months[0].1 + days[0].1))
      else FirstMonthDay(s, year, months[1..])
  }

  /** `re.match` of `(?P<Y>\d\d\d\d)(?P<m>...)(?P<d>...)` on `s`: the date
      parts and the index where the match ends. */
  function RegexMatch(s: string): Option<(Date, nat)> {
    if |s| < 4 || !(Strs.IsDigit(s[0]) && Strs.IsDigit(s[1]) && Strs.IsDigit(s[2]) && Strs.IsDigit(s[3])) then None
    else
      var year := 1000 * Strs.DigitValue(s[0]) + 100 * Strs.DigitValue(s[1]) + 10 * Strs.DigitValue(s[2]) + Strs.DigitValue(s[3]);
      FirstMonthDay(s, year, MonthMatches(s, 4))
  }

  /** `datetime.strptime(s, "%Y%m%d")`, reduced to its date. */
  function Strptime(s: string): (r: Result<Date, ParseError>)
    ensures r.Success? ==> ValidDate(r.value)
  {
    match RegexMatch(s)
    case None => Failure(NoMatch)
    case Some((date, end)) =>
      if end != |s| then Failure(UnconvertedData)
      else if date.year < 1 || date.day > DaysInMonth(date.year, date.month) then Failure(DateOutOfRange)
      else
        assert date.year <= 9999;
        Success(date)
  }

  /** The eight-digit `YYYYMMDD` spelling of a date, zero-padded. */
  function Format8(d: Date): string
    requires ValidDate(d)
  {
    [Strs.DigitChar(d.year / 1000), Strs.DigitChar(d.year / 100 % 10), Strs.DigitChar(d.year / 10 % 10), Strs.DigitChar(d.year % 10),
     Strs.DigitChar(d.month / 10), Strs.DigitChar(d.month % 10), Strs.DigitChar(d.day / 10), Strs.DigitChar(d.day % 10)]
  }

  /** A zero-padded two-digit month at `i` is the first month alternative. */
  lemma MonthMatchesTwoDigits(s: string, i: nat, m: int)
    requires 1 <= m <= 12 && i + 1 < |s|
    requires s[i] == Strs.DigitChar(m / 10) && s[i + 1] == Strs.DigitChar(m % 10)
    ensures MonthMatches(s, i) != [] && MonthMatches(s, i)[0] == (m, 2)
  {
  }

  /** A zero-padded two-digit day at `i` is the first day alternative. */
  lemma DayMatchesTwoDigits(s: string, i: nat, d: int)
    requires 1 <= d <= 31 && i + 1 < |s|
    requires s[i] == Strs.DigitChar(d / 10) && s[i + 1] == Strs.DigitChar(d % 10)
    ensures DayMatches(s, i) != [] && DayMatches(s, i)[0] == (d, 2)
  {
  }

  /** Four digits spell back the year they were made from. */
  lemma YearDigits(y: int)
    requires 1 <= y <= 9999
    ensures 1000 * Strs.DigitValue(Strs.DigitChar(y / 1000)) + 100 * Strs.DigitValue(Strs.DigitChar(y / 100 % 10))
            + 10 * Strs.DigitValue(Strs.DigitChar(y / 10 % 10)) + Strs.DigitValue(Strs.DigitChar(y % 10)) == y
  {
    var a, b, c := y / 10, y / 100, y / 1000;
    assert y == 10 * a + y % 10;
    assert b == a / 10 && a == 10 * b + a % 10;
    assert c == b / 10 && b == 10 * c + b % 10;
    assert c < 10;
  }

  /** Every valid date written as `YYYYMMDD` parses back to itself. */
  lemma StrptimeFormat8(d: Date)
    requires ValidDate(d)
    ensures Strptime(Format8(d)) == Success(d)
  {
    var s := Format8(d);
    YearDigits(d.year);
    MonthMatchesTwoDigits(s, 4, d.month);
    DayMatchesTwoDigits(s, 6, d.day);
    FirstMonthDayFront(s, d.year, MonthMatches(s, 4));
    RegexMatchYear(s, d.year);
  }

  /** The first month alternative wins when a day follows it. */
  lemma FirstMonthDayFront(s: string, year: int, months: seq<(int, nat)>)
    requires forall k :: 0 <= k < |months| ==> 1 <= months[k].0 <= 12
    requires months != [] && DayMatches(s, 4 + months[0].1) != []
    ensures FirstMonthDay(s, year, months)
         == Some((Date(year, months[0].0, DayMatches(s, 4 + months[0].1)[0].0), 4 + months[0].1 + DayMatches(s, 4 + months[0].1)[0].1))
  {
  }

  /** Four leading digits spelling `year` hand over to the month and day. */
  lemma RegexMatchYear(s: string, year: int)
    requires |s| >= 4 && Strs.IsDigit(s[0]) && Strs.IsDigit(s[1]) && Strs.IsDigit(s[2]) && Strs.IsDigit(s[3])
    requires year == 1000 * Strs.DigitValue(s[0]) + 100 * Strs.DigitValue(s[1]) + 10 * Strs.DigitValue(s[2]) + Strs.DigitValue(s[3])
    ensures RegexMatch(s) == FirstMonthDay(s, year, MonthMatches(s, 4))
  {
  }

  /** 27 July 2023 is the Thursday of ISO week 30. */
  lemma IsoCalendarExample()
    ensures IsoCalendar(2023, 7, 27) == IsoDate(2023, 30, 4)
    ensures IsoWeekday(Ordinal(2023, 7, 27)) == 4
  {
    assert DaysBeforeYear(2023) == 738520;
    assert DaysBeforeYear(2024) == 738885;
    assert Ordinal(2023, 7, 27) == 738728;
    assert Week1Monday(2023) == 738522;
  }

  /** 30 December 2024 is the Monday of week 1 of ISO year 2025. */
  lemma IsoCalendarYearEnd()
    ensures IsoCalendar(2024, 12, 30) == IsoDate(2025, 1, 1)
  {
    assert DaysBeforeYear(2024) == 738885;
    assert DaysBeforeYear(2025) == 739251;
    assert Ordinal(2024, 12, 30) == 739250;
    assert Week1Monday(2024) == 738886;
    assert Week1Monday(2025) == 739250;
  }

  lemma StrptimeYearEnd()
    ensures Strptime("20241230") == Success(Date(2024, 12, 30))
  {
    StrptimeFormat8(Date(2024, 12, 30));
    Format8YearEnd();
  }

  lemma Format8YearEnd()
    ensures Format8(Date(2024, 12, 30)) == "20241230"
  {
    assert 2024 / 1000 == 2 && 2024 / 100 % 10 == 0 && 2024 / 10 % 10 == 2 && 2024 % 10 == 4;
    assert 12 / 10 == 1 && 12 % 10 == 2 && 30 / 10 == 3 && 30 % 10 == 0;
    assert Strs.DigitChar(0) == '0' && Strs.DigitChar(1) == '1' && Strs.DigitChar(2) == '2';
    assert Strs.DigitChar(3) == '3' && Strs.DigitChar(4) == '4';
  }

  lemma StrptimeExample()
    ensures Strptime("20230727") == Success(Date(2023, 7, 27))
  {
    StrptimeFormat8(Date(2023, 7, 27));
    Format8Example();
  }

  lemma Format8Example()
    ensures Format8(Date(2023, 7, 27)) == "20230727"
  {
    assert 2023 / 1000 == 2 && 2023 / 100 % 10 == 0 && 2023 / 10 % 10 == 2 && 2023 % 10 == 3;
    assert 7 / 10 == 0 && 7 % 10 == 7 && 27 / 10 == 2 && 27 % 10 == 7;
    assert Strs.DigitChar(0) == '0' && Strs.DigitChar(2) == '2' && Strs.DigitChar(3) == '3' && Strs.DigitChar(7) == '7';
  }

  /** A short form the pattern also accepts: "2023111" is 1 November 2023
      (the month takes "11" first and leaves "1" for the day). */
  lemma StrptimeSevenDigits()
    ensures Strptime("2023111") == Success(Date(2023, 11, 1))
  {
    assert MonthMatches("2023111", 4)[0] == (11, 2);
    assert DayMatches("2023111", 6)[0] == (1, 1);
  }

  /** Month "13" is read as month 1, day 30, leaving one digit unconverted. */
  lemma StrptimeMonthThirteen()
    ensures Strptime("20231301") == Failure(UnconvertedData)
  {
    assert MonthMatches("20231301", 4) == [(1, 1)];
    assert DayMatches("20231301", 5)[0] == (30, 2);
  }

  /** February 29 of a common year is out of range. */
  lemma StrptimeNotLeap()
    ensures Strptime("20230229") == Failure(DateOutOfRange)
  {
    assert MonthMatches("20230229", 4)[0] == (2, 2);
    assert DayMatches("20230229", 6)[0] == (29, 2);
  }
}
