// The reporting period of packages/shared/src/reporting-period.ts over the proleptic Gregorian calendar, with
// the month and year rollover of Date (ECMA-262, section 21.4.1). A local date is taken at face value: time
// zones and daylight saving do not shift it.
module ReportingPeriod {
  import opened Wrappers
  import opened JsText

  // ---------------------------------------------------------------------------------------------------
  // The calendar
  // ---------------------------------------------------------------------------------------------------

  datatype Day = Day(year: int, month: int, day: int)

  predicate IsLeap(year: int) {
    year % 4 == 0 && (year % 100 != 0 || year % 400 == 0)
  }

  function DaysInMonth(year: int, month: int): (days: int)
    requires 1 <= month <= 12
    ensures 28 <= days <= 31
  {
    if month == 2 then (if IsLeap(year) then 29 else 28)
    else if month in {4, 6, 9, 11} then 30
    else 31
  }

  predicate IsMonth(year: int, month: int) {
    1 <= month <= 12
  }

  predicate IsReal(d: Day) {
    IsMonth(d.year, d.month) && 1 <= d.day <= DaysInMonth(d.year, d.month)
  }

  function DaysBeforeYear(year: int): int {
    365 * year + (year + 3) / 4 - (year + 99) / 100 + (year + 399) / 400
  }

  function DaysBeforeMonth(year: int, month: int): (days: int)
    requires IsMonth(year, month)
    ensures 0 <= days <= 31 * (month - 1)
    decreases month
  {
    if month == 1 then 0 else DaysBeforeMonth(year, month - 1) + DaysInMonth(year, month - 1)
  }

  /** The number of the day; consecutive days have consecutive numbers. */
  function DayNumber(d: Day): int
    requires IsMonth(d.year, d.month)
  {
    DaysBeforeYear(d.year) + DaysBeforeMonth(d.year, d.month) + d.day - 1
  }

  function NextMonth(d: Day): Day
    requires IsMonth(d.year, d.month)
  {
    if d.month == 12 then Day(d.year + 1, 1, d.day) else Day(d.year, d.month + 1, d.day)
  }

  function PreviousMonth(d: Day): Day
    requires IsMonth(d.year, d.month)
  {
    if d.month == 1 then Day(d.year - 1, 12, d.day) else Day(d.year, d.month - 1, d.day)
  }

  /** The date that Date makes of a day past the end of its month. */
  function Rollover(d: Day): Day
    requires IsMonth(d.year, d.month) && 1 <= d.day <= 31
  {
    if IsReal(d) then d else NextMonth(d).(day := d.day - DaysInMonth(d.year, d.month))
  }

  lemma FourthsStep(n: int)
    ensures (n + 4) / 4 - (n + 3) / 4 == if n % 4 == 0 then 1 else 0
  {
  }

  lemma HundredthsStep(n: int)
    ensures (n + 100) / 100 - (n + 99) / 100 == if n % 100 == 0 then 1 else 0
  {
  }

  lemma FourHundredthsStep(n: int)
    ensures (n + 400) / 400 - (n + 399) / 400 == if n % 400 == 0 then 1 else 0
  {
  }

  lemma CenturiesAreMultiplesOfFour(n: int)
    ensures n % 400 == 0 ==> n % 100 == 0
    ensures n % 100 == 0 ==> n % 4 == 0
  {
  }

  lemma YearLength(year: int)
    ensures DaysBeforeYear(year + 1) - DaysBeforeYear(year) == if IsLeap(year) then 366 else 365
  {
    FourthsStep(year);
    HundredthsStep(year);
    FourHundredthsStep(year);
    CenturiesAreMultiplesOfFour(year);
  }

  lemma MonthsFillTheYear(year: int)
    ensures DaysBeforeMonth(year, 12) + DaysInMonth(year, 12) == if IsLeap(year) then 366 else 365
  {
    assert DaysBeforeMonth(year, 3) == 31 + DaysInMonth(year, 2);
    assert DaysBeforeMonth(year, 5) == DaysBeforeMonth(year, 3) + 61;
    assert DaysBeforeMonth(year, 7) == DaysBeforeMonth(year, 5) + 61;
    assert DaysBeforeMonth(year, 9) == DaysBeforeMonth(year, 7) + 62;
    assert DaysBeforeMonth(year, 11) == DaysBeforeMonth(year, 9) + 61;
    assert DaysBeforeMonth(year, 12) == DaysBeforeMonth(year, 11) + 30;
  }

  /** A month later is as many days later as the month has. */
  lemma MonthStep(d: Day)
    requires IsMonth(d.year, d.month)
    ensures DayNumber(NextMonth(d)) == DayNumber(d) + DaysInMonth(d.year, d.month)
  {
    hide DaysBeforeYear, DaysInMonth, IsLeap;
    if d.month == 12 {
      YearLength(d.year);
      MonthsFillTheYear(d.year);
    }
  }

  /** Rolling over gives the real day with the intended number. */
  lemma RolloverKeepsNumber(d: Day)
    requires IsMonth(d.year, d.month) && 1 <= d.day <= 31
    ensures IsReal(Rollover(d)) && DayNumber(Rollover(d)) == DayNumber(d)
  {
    MonthStep(d);
  }

  predicate Before(a: Day, b: Day) {
    a.year < b.year || (a.year == b.year && (a.month < b.month || (a.month == b.month && a.day < b.day)))
  }

  lemma {:induction false} LaterYear(y1: int, y2: int)
    requires y1 < y2
    ensures DaysBeforeYear(y1) + (if IsLeap(y1) then 366 else 365) <= DaysBeforeYear(y2)
    decreases y2 - y1
  {
    YearLength(y1);
    if y1 + 1 < y2 {
      LaterYear(y1 + 1, y2);
    }
  }

  lemma {:induction false} LaterMonth(year: int, m1: int, m2: int)
    requires 1 <= m1 < m2 <= 12
    ensures DaysBeforeMonth(year, m1) + DaysInMonth(year, m1) <= DaysBeforeMonth(year, m2)
    decreases m2
  {
    if m1 + 1 < m2 {
      LaterMonth(year, m1, m2 - 1);
    }
  }

  lemma WithinYear(d: Day)
    requires IsReal(d)
    ensures DaysBeforeMonth(d.year, d.month) + d.day <= if IsLeap(d.year) then 366 else 365
  {
    MonthsFillTheYear(d.year);
    if d.month < 12 {
      LaterMonth(d.year, d.month, 12);
    }
  }

  /** Day numbers follow the calendar order, so they determine the day. */
  lemma NumbersFollowOrder(a: Day, b: Day)
    requires IsReal(a) && IsReal(b)
    ensures Before(a, b) <==> DayNumber(a) < DayNumber(b)
    ensures a == b <==> DayNumber(a) == DayNumber(b)
  {
    EarlierHasLowerNumber(a, b);
    EarlierHasLowerNumber(b, a);
  }

  lemma EarlierHasLowerNumber(a: Day, b: Day)
    requires IsReal(a) && IsReal(b)
    ensures Before(a, b) ==> DayNumber(a) < DayNumber(b)
  {
    if a.year < b.year {
      LaterYear(a.year, b.year);
      WithinYear(a);
    } else if a.year == b.year && a.month < b.month {
      LaterMonth(a.year, a.month, b.month);
    }
  }

  // ---------------------------------------------------------------------------------------------------
  // Texts
  // ---------------------------------------------------------------------------------------------------

  function Digit(n: int): char
    requires 0 <= n <= 9
  {
    '0' + n as char
  }

  predicate IsDigit(c: char) {
    '0' <= c <= '9'
  }

  function DigitValue(c: char): (n: int)
    requires IsDigit(c)
    ensures 0 <= n <= 9
  {
    c as int - '0' as int
  }

  function NatText(n: nat): string {
    if n < 10 then [Digit(n)] else NatText(n / 10) + [Digit(n % 10)]
  }

  function TwoDigits(n: int): string
    requires 0 <= n <= 99
  {
    [Digit(n / 10), Digit(n % 10)]
  }

  function FourDigits(n: int): string
    requires 0 <= n <= 9999
  {
    TwoDigits(n / 100) + TwoDigits(n % 100)
  }

  /** toISOString().slice(0, 10) */
  function IsoText(d: Day): string
    requires IsReal(d) && 0 <= d.year <= 9999
  {
    FourDigits(d.year) + "-" + TwoDigits(d.month) + "-" + TwoDigits(d.day)
  }

  /** toLocalIsoDateOnly: the year is not padded. */
  function LocalText(d: Day): string
    requires IsReal(d) && 0 <= d.year
  {
    NatText(d.year) + "-" + TwoDigits(d.month) + "-" + TwoDigits(d.day)
  }

  predicate HasIsoShape(s: string) {
    && |s| == 10 && s[4] == '-' && s[7] == '-'
    && (forall i :: 0 <= i < 10 && i != 4 && i != 7 ==> IsDigit(s[i]))
  }

  function Fields(s: string): Day
    requires HasIsoShape(s)
  {
    Day(1000 * DigitValue(s[0]) + 100 * DigitValue(s[1]) + 10 * DigitValue(s[2]) + DigitValue(s[3]),
        10 * DigitValue(s[5]) + DigitValue(s[6]),
        10 * DigitValue(s[8]) + DigitValue(s[9]))
  }

  /** new Date(`${s}T00:00:00.000Z`): not a date when the month or the day is out of range, rolled over when the
      day is past the end of its month. */
  function DateOf(s: string): Option<Day>
    requires HasIsoShape(s)
  {
    var d := Fields(s);
    if IsMonth(d.year, d.month) && 1 <= d.day <= 31 then Some(Rollover(d)) else None
  }

  function ParseIsoDateOnly(s: string): Option<Day> {
    if !HasIsoShape(s) then None
    else
      match DateOf(s)
      case None => None
      case Some(d) =>
        if IsReal(d) && 0 <= d.year <= 9999 && IsoText(d) == s then Some(d) else None
  }

  lemma FieldsOfIsoText(d: Day)
    requires IsReal(d) && 0 <= d.year <= 9999
    ensures HasIsoShape(IsoText(d)) && Fields(IsoText(d)) == d
  {
  }

  lemma IsoTextOfFields(s: string)
    requires HasIsoShape(s) && IsReal(Fields(s))
    ensures IsoText(Fields(s)) == s
  {
    var d := Fields(s);
    var high, low := 10 * DigitValue(s[0]) + DigitValue(s[1]), 10 * DigitValue(s[2]) + DigitValue(s[3]);
    assert d.year == 100 * high + low;
    assert d.year / 100 == high && d.year % 100 == low;
    TwoDigitsOf(s[0], s[1]);
    TwoDigitsOf(s[2], s[3]);
    TwoDigitsOf(s[5], s[6]);
    TwoDigitsOf(s[8], s[9]);
  }

  lemma TwoDigitsOf(tens: char, units: char)
    requires IsDigit(tens) && IsDigit(units)
    ensures TwoDigits(10 * DigitValue(tens) + DigitValue(units)) == [tens, units]
  {
  }

  /** The parser accepts exactly the texts of real Gregorian dates of years 0000 to 9999, and undoes them. */
  lemma ParseAcceptsRealDatesExactly(s: string)
    ensures ParseIsoDateOnly(s).Some? <==> HasIsoShape(s) && IsReal(Fields(s))
    ensures ParseIsoDateOnly(s).Some? ==> ParseIsoDateOnly(s).value == Fields(s) && IsoText(Fields(s)) == s
  {
    if HasIsoShape(s) {
      if IsReal(Fields(s)) {
        IsoTextOfFields(s);
      } else if ParseIsoDateOnly(s).Some? {
        FieldsOfIsoText(DateOf(s).value);
      }
    }
  }

  lemma ParseOfIsoText(d: Day)
    requires IsReal(d) && 0 <= d.year <= 9999
    ensures ParseIsoDateOnly(IsoText(d)) == Some(d)
  {
    FieldsOfIsoText(d);
    ParseAcceptsRealDatesExactly(IsoText(d));
  }

  // ---------------------------------------------------------------------------------------------------
  // Validation
  // ---------------------------------------------------------------------------------------------------

  datatype PeriodError = Missing | Invalid | Reversed | TooLong

  const MAX_YEARS := 2

  function LatestEnd(start: Day): Day
    requires IsReal(start)
  {
    Rollover(start.(year := start.year + MAX_YEARS))
  }

  function LengthError(start: Day, end: Day): Option<PeriodError>
    requires IsReal(start) && IsReal(end)
  {
    RolloverKeepsNumber(start.(year := start.year + MAX_YEARS));
    if DayNumber(start) > DayNumber(end) then Some(Reversed)
    else if DayNumber(end) > DayNumber(LatestEnd(start)) then Some(TooLong)
    else None
  }

  function GetReportingPeriodError(startDate: Option<string>, endDate: Option<string>): Option<PeriodError> {
    var startRaw := if startDate.Some? then Trim(startDate.value) else "";
    var endRaw := if endDate.Some? then Trim(endDate.value) else "";
    if startRaw == "" || endRaw == "" then Some(Missing)
    else
      ParseAcceptsRealDatesExactly(startRaw);
      ParseAcceptsRealDatesExactly(endRaw);
      match (ParseIsoDateOnly(startRaw), ParseIsoDateOnly(endRaw))
      case (Some(start), Some(end)) => LengthError(start, end)
      case _ => Some(Invalid)
  }

  /** The same day two years later; 29 February falls in no leap year then, and gives 1 March. */
  function TwoYearsLater(start: Day): Day {
    if start.month == 2 && start.day == 29 then Day(start.year + 2, 3, 1)
    else Day(start.year + 2, start.month, start.day)
  }

  lemma LatestEndIsTwoYearsLater(start: Day)
    requires IsReal(start)
    ensures LatestEnd(start) == TwoYearsLater(start)
  {
  }

  lemma LengthIsRefused(start: Day, end: Day)
    requires IsReal(start) && IsReal(end)
    ensures LengthError(start, end) == if Before(end, start) then Some(Reversed)
                                       else if Before(TwoYearsLater(start), end) then Some(TooLong) else None
  {
    LatestEndIsTwoYearsLater(start);
    RolloverKeepsNumber(start.(year := start.year + MAX_YEARS));
    NumbersFollowOrder(end, start);
    NumbersFollowOrder(LatestEnd(start), end);
    hide DayNumber, Before, Rollover, TwoYearsLater;
  }

  predicate NamesRealDate(s: string) {
    HasIsoShape(s) && IsReal(Fields(s))
  }

  /** What is left of a text that may be absent. */
  function Given(text: Option<string>): string {
    if text.Some? then Trim(text.value) else ""
  }

  /** A period is accepted exactly when both texts, once trimmed, are real dates, in calendar order, at most two years
      apart (29 February counting as 1 March two years later). */
  lemma AcceptedPeriods(startDate: Option<string>, endDate: Option<string>)
    ensures var (s, e) := (Given(startDate), Given(endDate));
            GetReportingPeriodError(startDate, endDate).None? <==>
              && NamesRealDate(s) && NamesRealDate(e)
              && !Before(Fields(e), Fields(s)) && !Before(TwoYearsLater(Fields(s)), Fields(e))
  {
    var s, e := Given(startDate), Given(endDate);
    ParseAcceptsRealDatesExactly(s);
    ParseAcceptsRealDatesExactly(e);
    assert NamesRealDate(s) ==> s != "";
    assert NamesRealDate(e) ==> e != "";
    hide LengthError, ParseIsoDateOnly, HasIsoShape, IsReal, Before, Trim, Fields, TwoYearsLater;
    if NamesRealDate(s) && NamesRealDate(e) {
      LengthIsRefused(Fields(s), Fields(e));
    }
  }

  /** Why a period is refused: a blank text first, then a text that is no real date, then the order, then the length. */
  lemma RefusalsAreExact(startDate: Option<string>, endDate: Option<string>)
    ensures var (s, e, error) := (Given(startDate), Given(endDate), GetReportingPeriodError(startDate, endDate));
            && (error == Some(Missing) <==> s == "" || e == "")
            && (error == Some(Invalid) <==> s != "" && e != "" && !(NamesRealDate(s) && NamesRealDate(e)))
            && (error == Some(Reversed) <==>
                  NamesRealDate(s) && NamesRealDate(e) && Before(Fields(e), Fields(s)))
            && (error == Some(TooLong) <==>
                  && NamesRealDate(s) && NamesRealDate(e)
                  && !Before(Fields(e), Fields(s)) && Before(TwoYearsLater(Fields(s)), Fields(e)))
  {
    var s, e := Given(startDate), Given(endDate);
    ParseAcceptsRealDatesExactly(s);
    ParseAcceptsRealDatesExactly(e);
    assert NamesRealDate(s) ==> s != "";
    assert NamesRealDate(e) ==> e != "";
    hide LengthError, ParseIsoDateOnly, HasIsoShape, IsReal, Before, Trim, Fields, TwoYearsLater;
    if NamesRealDate(s) && NamesRealDate(e) {
      LengthIsRefused(Fields(s), Fields(e));
    }
  }

  // ---------------------------------------------------------------------------------------------------
  // The default period
  // ---------------------------------------------------------------------------------------------------

  /** setMonth(getMonth() - 1) on today. */
  function DefaultStart(today: Day): Day
    requires IsReal(today)
  {
    Rollover(PreviousMonth(today))
  }

  function DefaultReportingPeriod(today: Day): (string, string)
    requires IsReal(today) && today.year >= 100
  {
    RolloverKeepsNumber(PreviousMonth(today));
    (LocalText(DefaultStart(today)), LocalText(today))
  }

  /** The part of Date that the period uses: a calendar day whose fields are set in place. */
  class DateValue {
    var day: Day

    constructor (d: Day)
      ensures day == d
    {
      day := d;
    }

    ghost predicate Valid()
      reads this
    {
      IsReal(day)
    }

    /** Months are counted from 0 and may lie outside the year; a day past the end of the month rolls over. */
    method SetMonth(month: int)
      requires Valid()
      modifies this
      ensures Valid()
      ensures day == Rollover(AtMonth(old(day), month))
      ensures DayNumber(day) == DayNumber(AtMonth(old(day), month))
    {
      RolloverKeepsNumber(AtMonth(day, month));
      day := Rollover(AtMonth(day, month));
    }

    method SetFullYear(year: int)
      requires Valid()
      modifies this
      ensures Valid()
      ensures day == Rollover(old(day).(year := year))
      ensures DayNumber(day) == DayNumber(old(day).(year := year))
    {
      RolloverKeepsNumber(day.(year := year));
      day := Rollover(day.(year := year));
    }
  }

  function AtMonth(d: Day, month: int): (r: Day)
    ensures IsMonth(r.year, r.month)
  {
    Day(d.year + month / 12, month % 12 + 1, d.day)
  }

  lemma MonthBefore(today: Day)
    requires IsReal(today)
    ensures Rollover(AtMonth(today, today.month - 1 - 1)) == DefaultStart(today)
    ensures DefaultStart(today).year >= today.year - 1
  {
    assert AtMonth(today, today.month - 1 - 1) == PreviousMonth(today);
    hide IsLeap;
  }

  method ComputeDefaultReportingPeriod(today: Day) returns (startDate: string, endDate: string)
    requires IsReal(today) && today.year >= 100
    ensures (startDate, endDate) == DefaultReportingPeriod(today)
  {
    hide AtMonth, Rollover, DayNumber, LocalText, IsReal, IsMonth;
    MonthBefore(today);
    var end := new DateValue(today);
    var start := new DateValue(end.day);
    start.SetMonth(start.day.month - 1 - 1);
    startDate, endDate := LocalText(start.day), LocalText(end.day);
  }

  method CheckReportingPeriod(startDate: Option<string>, endDate: Option<string>) returns (error: Option<PeriodError>)
    ensures error == GetReportingPeriodError(startDate, endDate)
  {
    hide Trim, ParseIsoDateOnly, HasIsoShape, DayNumber, Rollover, DaysInMonth, IsoText;
    var startRaw := if startDate.Some? then Trim(startDate.value) else "";
    var endRaw := if endDate.Some? then Trim(endDate.value) else "";
    if startRaw == "" || endRaw == "" {
      return Some(Missing);
    }
    var start, end := ParseIsoDateOnly(startRaw), ParseIsoDateOnly(endRaw);
    if start.None? || end.None? {
      return Some(Invalid);
    }
    ParseAcceptsRealDatesExactly(startRaw);
    ParseAcceptsRealDatesExactly(endRaw);
    if DayNumber(start.value) > DayNumber(end.value) {
      return Some(Reversed);
    }
    var maxEnd := new DateValue(start.value);
    maxEnd.SetFullYear(maxEnd.day.year + MAX_YEARS);
    if DayNumber(end.value) > DayNumber(maxEnd.day) {
      return Some(TooLong);
    }
    error := None;
  }

  /** The default period spans exactly as many days as the preceding month has, month-end rollover included. */
  lemma DefaultPeriodSpansPreviousMonth(today: Day)
    requires IsReal(today)
    ensures var previous := PreviousMonth(today);
            && IsReal(DefaultStart(today))
            && DayNumber(today) - DayNumber(DefaultStart(today)) == DaysInMonth(previous.year, previous.month)
  {
    var previous := PreviousMonth(today);
    assert NextMonth(previous) == today;
    hide DayNumber, DaysInMonth, Rollover, NextMonth;
    RolloverKeepsNumber(previous);
    MonthStep(previous);
  }

  lemma {:induction false} NatTextLength(n: nat)
    ensures |NatText(n)| == 4 <==> 1000 <= n <= 9999
    ensures 1000 <= n <= 9999 ==> NatText(n) == FourDigits(n)
    ensures n > 9999 ==> |NatText(n)| > 4
    ensures n < 1000 ==> |NatText(n)| < 4
  {
    if n > 9999 {
      NatTextLength(n / 10);
    } else if n >= 1000 {
      assert NatText(n / 1000) == [Digit(n / 1000)];
      assert NatText(n / 100) == [Digit(n / 1000), Digit(n / 100 % 10)];
      assert NatText(n / 10) == [Digit(n / 1000), Digit(n / 100 % 10), Digit(n / 10 % 10)];
      assert n / 100 / 10 == n / 1000 && n % 100 / 10 == n / 10 % 10 && n % 100 % 10 == n % 10;
    } else if n >= 10 {
      assert |NatText(n / 100)| == 1;
    }
  }

  lemma LocalTextIsRead(d: Day)
    requires IsReal(d) && d.year >= 0
    ensures Trimmed(LocalText(d)) && LocalText(d) != ""
    ensures ParseIsoDateOnly(LocalText(d)) == if 1000 <= d.year <= 9999 then Some(d) else None
  {
    NatTextLength(d.year);
    NatTextStartsWithDigit(d.year);
    if 1000 <= d.year <= 9999 {
      assert LocalText(d) == IsoText(d);
      ParseOfIsoText(d);
    }
  }

  lemma {:induction false} NatTextStartsWithDigit(n: nat)
    ensures NatText(n) != "" && IsDigit(NatText(n)[0])
  {
    if n >= 10 {
      NatTextStartsWithDigit(n / 10);
    }
  }

  /** The validator accepts the default period for exactly the days from 1 February 1000 to 31 December 9999:
      before and after, a year is not written with four digits. */
  lemma DefaultPeriodAcceptedExactly(today: Day)
    requires IsReal(today) && today.year >= 100
    ensures var (s, e) := DefaultReportingPeriod(today);
            GetReportingPeriodError(Some(s), Some(e)).None? <==>
              !Before(today, Day(1000, 2, 1)) && !Before(Day(9999, 12, 31), today)
  {
    hide LocalText, DayNumber, ParseIsoDateOnly;
    var start := DefaultStart(today);
    RolloverKeepsNumber(PreviousMonth(today));
    LocalTextIsRead(start);
    LocalTextIsRead(today);
    TrimOfTrimmed(LocalText(start));
    TrimOfTrimmed(LocalText(today));
    DefaultPeriodInBounds(today);
  }

  lemma DefaultPeriodInBounds(today: Day)
    requires IsReal(today)
    ensures IsReal(DefaultStart(today)) && IsReal(LatestEnd(DefaultStart(today)))
    ensures DayNumber(DefaultStart(today)) <= DayNumber(today) <= DayNumber(LatestEnd(DefaultStart(today)))
  {
    DefaultPeriodSpansPreviousMonth(today);
    TwoYearsAreLong(DefaultStart(today));
  }

  lemma TwoYearsAreLong(d: Day)
    requires IsReal(d)
    ensures IsReal(LatestEnd(d)) && DayNumber(LatestEnd(d)) >= DayNumber(d) + 365
  {
    hide DaysBeforeYear, DaysBeforeMonth, DaysInMonth, Rollover, IsLeap;
    var later := d.(year := d.year + MAX_YEARS);
    RolloverKeepsNumber(later);
    YearLength(d.year);
    YearLength(d.year + 1);
    SameMonthStart(d.year, d.year + 2, d.month);
  }

  lemma {:induction false} SameMonthStart(y1: int, y2: int, month: int)
    requires 1 <= month <= 12
    ensures -1 <= DaysBeforeMonth(y1, month) - DaysBeforeMonth(y2, month) <= 1
    ensures month <= 2 ==> DaysBeforeMonth(y1, month) == DaysBeforeMonth(y2, month)
    decreases month
  {
    if month > 1 {
      SameMonthStart(y1, y2, month - 1);
    }
  }
}
