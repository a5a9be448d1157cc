/**
 * Dates at midnight as day numbers from 1970-01-01, on the proleptic Gregorian calendar
 * of section 21.4.1 of ECMA-262. Months are 0-based and days of a month 1-based, as in Date.
 */
module Calendar {
  type Day = int

  datatype Granularity = Monthly | Quarterly

  // ---------- Year, month and date of a day ----------

  predicate InLeapYear(year: int) {
    (year % 4 == 0 && year % 100 != 0) || year % 400 == 0
  }

  function DaysInYear(year: int): (n: int)
    ensures n == 365 || n == 366
  {
    if InLeapYear(year) then 366 else 365
  }

  /** The first day of a year, year by year. */
  function DayFromYear(year: int): Day
    decreases if year >= 1970 then year - 1970 else 1970 - year
  {
    if year == 1970 then 0
    else if year > 1970 then DayFromYear(year - 1) + DaysInYear(year - 1)
    else DayFromYear(year + 1) - DaysInYear(year)
  }

  /** Days of the year before month `month`; month 12 stands for the whole year. */
  function DaysBefore(leap: bool, month: int): int
    requires 0 <= month <= 12
  {
    var extra := if leap then 1 else 0;
    if month == 0 then 0 else if month == 1 then 31 else if month == 2 then 59 + extra
    else if month == 3 then 90 + extra else if month == 4 then 120 + extra else if month == 5 then 151 + extra
    else if month == 6 then 181 + extra else if month == 7 then 212 + extra else if month == 8 then 243 + extra
    else if month == 9 then 273 + extra else if month == 10 then 304 + extra else if month == 11 then 334 + extra
    else 365 + extra
  }

  /** The first day of a month; month 12 is January of the next year. */
  function MonthStart(year: int, month: int): Day
    requires 0 <= month <= 12
  {
    DayFromYear(year) + DaysBefore(InLeapYear(year), month)
  }

  lemma YearStep(year: int)
    ensures DayFromYear(year + 1) == DayFromYear(year) + DaysInYear(year)
    ensures MonthStart(year, 12) == MonthStart(year + 1, 0)
  {
  }

  /** Dividing one more: the quotient moves on exactly when the remainder wraps around. */
  lemma QuotientMoves(x: int, d: int, q: int, r: int)
    requires d > 0 && x == d * q + r && 0 <= r < d
    ensures x / d == q && x % d == r
    ensures (x + 1) / d == if r == d - 1 then q + 1 else q
    ensures (x + 1) % d == if r == d - 1 then 0 else r + 1
  {
    DivModUnique(x, d, q, r);
    if r == d - 1 {
      assert x + 1 == d * (q + 1);
      DivModUnique(x + 1, d, q + 1, 0);
    } else {
      DivModUnique(x + 1, d, q, r + 1);
    }
  }

  lemma DivModUnique(x: int, d: int, q: int, r: int)
    requires d > 0 && x == d * q + r && 0 <= r < d
    ensures x / d == q && x % d == r
  {
    var k := x / d - q;
    assert x == d * (x / d) + x % d;
    assert d * k == r - x % d;
    MultipleOf(d, k);
  }

  lemma MultipleOf(d: int, k: int)
    requires d > 0
    ensures k >= 1 ==> d * k >= d
    ensures k <= -1 ==> d * k <= -d
  {
  }

  lemma FourYearStep(year: int)
    ensures (year - 1968) / 4 == (year - 1969) / 4 + (if year % 4 == 0 then 1 else 0)
  {
    var q, r := (year - 1969) / 4, (year - 1969) % 4;
    QuotientMoves(year - 1969, 4, q, r);
    QuotientMoves(year - 1, 4, q + 492, r);
  }

  lemma CenturyStep(year: int)
    ensures (year - 1900) / 100 == (year - 1901) / 100 + (if year % 100 == 0 then 1 else 0)
  {
    var q, r := (year - 1901) / 100, (year - 1901) % 100;
    QuotientMoves(year - 1901, 100, q, r);
    QuotientMoves(year - 1, 100, q + 19, r);
  }

  lemma FourCenturyStep(year: int)
    ensures (year - 1600) / 400 == (year - 1601) / 400 + (if year % 400 == 0 then 1 else 0)
  {
    var q, r := (year - 1601) / 400, (year - 1601) % 400;
    QuotientMoves(year - 1601, 400, q, r);
    QuotientMoves(year - 1, 400, q + 4, r);
  }

  lemma LeapRules(year: int)
    ensures year % 400 == 0 ==> year % 100 == 0
    ensures year % 100 == 0 ==> year % 4 == 0
  {
    if year % 400 == 0 {
      DivModUnique(year, 100, 4 * (year / 400), 0);
    }
    if year % 100 == 0 {
      DivModUnique(year, 4, 25 * (year / 100), 0);
    }
  }

  /** One more year moves the three quotients of the formula on exactly in leap and century years. */
  lemma QuotientStep(year: int)
    ensures (year - 1968) / 4 - (year - 1900) / 100 + (year - 1600) / 400 ==
            (year - 1969) / 4 - (year - 1901) / 100 + (year - 1601) / 400 + (if InLeapYear(year) then 1 else 0)
  {
    FourYearStep(year);
    CenturyStep(year);
    FourCenturyStep(year);
    LeapRules(year);
  }

  /** The formula of section 21.4.1.6 of ECMA-262. */
  lemma {:induction false} DayFromYearFormula(year: int)
    ensures DayFromYear(year) ==
            365 * (year - 1970) + (year - 1969) / 4 - (year - 1901) / 100 + (year - 1601) / 400
    decreases if year >= 1970 then year - 1970 else 1970 - year
  {
    if year > 1970 {
      DayFromYearFormula(year - 1);
      QuotientStep(year - 1);
    } else if year < 1970 {
      DayFromYearFormula(year + 1);
      QuotientStep(year);
    }
  }

  lemma {:induction false} YearsApart(y: int, z: int)
    requires y <= z
    ensures DayFromYear(z) - DayFromYear(y) >= 365 * (z - y)
    decreases z - y
  {
    if y < z {
      YearStep(z - 1);
      YearsApart(y, z - 1);
    }
  }

  /** The largest year, from `year` on, that has begun by `d`. */
  function YearFrom(d: Day, year: int): (y: int)
    requires DayFromYear(year) <= d
    ensures DayFromYear(y) <= d < DayFromYear(y + 1)
    decreases d - DayFromYear(year)
  {
    YearStep(year);
    if d < DayFromYear(year + 1) then year else YearFrom(d, year + 1)
  }

  /** Date.getFullYear */
  function YearOf(d: Day): (y: int)
    ensures DayFromYear(y) <= d < DayFromYear(y + 1)
  {
    if d >= 0 then YearFrom(d, 1970)
    else
      YearsApart(1970 + d, 1970);
      YearFrom(d, 1970 + d)
  }

  function DayInYear(d: Day): (n: int)
    ensures 0 <= n < DaysBefore(InLeapYear(YearOf(d)), 12)
  {
    YearStep(YearOf(d));
    d - DayFromYear(YearOf(d))
  }

  function MonthFrom(leap: bool, dayInYear: int, month: int): (m: int)
    requires 0 <= month < 12
    requires DaysBefore(leap, month) <= dayInYear < DaysBefore(leap, 12)
    ensures 0 <= m < 12
    ensures DaysBefore(leap, m) <= dayInYear < DaysBefore(leap, m + 1)
    decreases 12 - month
  {
    if dayInYear < DaysBefore(leap, month + 1) then month else MonthFrom(leap, dayInYear, month + 1)
  }

  /** Date.getMonth */
  function MonthOf(d: Day): (m: int)
    ensures 0 <= m < 12
    ensures MonthStart(YearOf(d), m) <= d < MonthStart(YearOf(d), m + 1)
  {
    MonthFrom(InLeapYear(YearOf(d)), DayInYear(d), 0)
  }

  lemma MonthLength(year: int, month: int)
    requires 0 <= month < 12
    ensures MonthStart(year, month + 1) - MonthStart(year, month) <= 31
  {
  }

  /** Date.getDate */
  function DateOf(d: Day): (n: int)
    ensures 1 <= n <= 31
  {
    MonthLength(YearOf(d), MonthOf(d));
    d - MonthStart(YearOf(d), MonthOf(d)) + 1
  }

  /** MakeDay: months outside 0..11 carry into the year, dates outside the month into the month. */
  function MakeDay(year: int, month: int, date: int): Day {
    MonthStart(year + month / 12, month % 12) + date - 1
  }

  /** The years that `new Date(year, ...)` reads as 1900 + year (section 21.4.2.1 of ECMA-262). */
  predicate TwoDigitYear(year: int) {
    0 <= year <= 99
  }

  /** `new Date(year, month, date)` */
  function NewDate(year: int, month: int, date: int): Day {
    MakeDay(if TwoDigitYear(year) then 1900 + year else year, month, date)
  }

  // ---------- Uniqueness and round trips ----------

  lemma YearMonotone(d: Day, e: Day)
    requires d <= e
    ensures YearOf(d) <= YearOf(e)
  {
    if YearOf(e) < YearOf(d) {
      YearsApart(YearOf(e) + 1, YearOf(d));
    }
  }

  lemma YearUnique(d: Day, year: int)
    requires DayFromYear(year) <= d < DayFromYear(year + 1)
    ensures YearOf(d) == year
  {
    if YearOf(d) < year {
      YearsApart(YearOf(d) + 1, year);
    } else if year < YearOf(d) {
      YearsApart(year + 1, YearOf(d));
    }
  }

  lemma MonthsApart(leap: bool, m: int, n: int)
    requires 0 <= m < n <= 12
    ensures DaysBefore(leap, m) + 28 <= DaysBefore(leap, m + 1) <= DaysBefore(leap, n)
  {
  }

  /** A day lies in one month only. */
  lemma MonthUnique(d: Day, year: int, month: int)
    requires 0 <= month < 12
    requires MonthStart(year, month) <= d < MonthStart(year, month + 1)
    ensures YearOf(d) == year && MonthOf(d) == month
  {
    var leap := InLeapYear(year);
    YearStep(year);
    MonthsApart(leap, month, 12);
    if month > 0 { MonthsApart(leap, 0, month); }
    YearUnique(d, year);
    var m := MonthOf(d);
    if m < month {
      MonthsApart(leap, m, month);
    } else if month < m {
      MonthsApart(leap, month, m);
    }
  }

  lemma MonthNormal(month: int)
    requires 0 <= month < 12
    ensures month / 12 == 0 && month % 12 == month
  {
  }

  /** Fields and days determine each other: a valid civil date is the date of its own day... */
  lemma FieldsOfMakeDay(year: int, month: int, date: int)
    requires 0 <= month < 12
    requires 1 <= date <= MonthStart(year, month + 1) - MonthStart(year, month)
    ensures var d := MakeDay(year, month, date); YearOf(d) == year && MonthOf(d) == month && DateOf(d) == date
  {
    MonthNormal(month);
    MonthUnique(MakeDay(year, month, date), year, month);
  }

  lemma MonthStartInYear(year: int, month: int)
    requires 0 <= month <= 12
    ensures DayFromYear(year) <= MonthStart(year, month)
  {
  }

  /** ...and the fields of a day, put back, give that day unless the year has two digits. */
  lemma NewDateOfFields(d: Day)
    ensures MakeDay(YearOf(d), MonthOf(d), DateOf(d)) == d
    ensures NewDate(YearOf(d), MonthOf(d), DateOf(d)) == d <==> !TwoDigitYear(YearOf(d))
  {
    var y, m, n := YearOf(d), MonthOf(d), DateOf(d);
    MonthNormal(m);
    assert MakeDay(y, m, n) == MonthStart(y, m) + n - 1;
    if TwoDigitYear(y) {
      NewDateMoves(y, m, n);
    }
    hide MonthStart, DateOf, MonthOf;
  }

  lemma NewDateMoves(year: int, month: int, date: int)
    requires TwoDigitYear(year) && 0 <= month && 1 <= date
    ensures NewDate(year, month, date) >= DayFromYear(1900) >= DayFromYear(year + 1)
  {
    var y := 1900 + year + month / 12;
    YearsApart(year + 1, 1900);
    YearsApart(1900, y);
    MonthStartInYear(y, month % 12);
  }

  // ---------- Date arithmetic ----------

  /** `setDate(getDate() + days)` */
  function AddDays(d: Day, days: int): (r: Day)
    ensures r == d + days
  {
    MonthNormal(MonthOf(d));
    MakeDay(YearOf(d), MonthOf(d), DateOf(d) + days)
  }

  /** `setFullYear(getFullYear() + years)`; it never reads a year as 1900 + year. */
  function AddYears(d: Day, years: int): Day {
    MakeDay(YearOf(d) + years, MonthOf(d), DateOf(d))
  }

  lemma LeapDays(month: int)
    requires 0 <= month < 12
    ensures 0 <= DaysBefore(true, month) - DaysBefore(false, month) <= 1
  {
  }

  lemma YearShift(year: int, month: int)
    requires 0 <= month < 12
    ensures 365 <= MonthStart(year + 1, month) - MonthStart(year, month) <= 366
  {
    YearStep(year);
    LeapDays(month);
    if InLeapYear(year) {
      assert !InLeapYear(year + 1);
    }
  }

  lemma NextYearIsLater(d: Day)
    ensures 365 <= AddYears(d, 1) - d <= 366
  {
    hide YearOf, MonthOf, MonthStart;
    MonthNormal(MonthOf(d));
    YearShift(YearOf(d), MonthOf(d));
  }

  /** `Math.floor((end - start) / msPerDay)` on midnights */
  function DifferenceInDays(end: Day, start: Day): int {
    end - start
  }

  function EndOfMonth(d: Day): Day {
    NewDate(YearOf(d), MonthOf(d) + 1, 0)
  }

  function EndOfQuarter(d: Day): Day {
    NewDate(YearOf(d), (MonthOf(d) / 3 + 1) * 3, 0)
  }

  function EndOf(granularity: Granularity, d: Day): Day {
    match granularity
    case Monthly => EndOfMonth(d)
    case Quarterly => EndOfQuarter(d)
  }

  // ---------- Months and quarters as calendar periods ----------

  function IndexOf(granularity: Granularity, year: int, month: int): int {
    match granularity
    case Monthly => 12 * year + month
    case Quarterly => 4 * year + month / 3
  }

  /** Months (quarters) counted from year 0: equal exactly for days of the same month (quarter). */
  function PeriodIndex(granularity: Granularity, d: Day): int {
    IndexOf(granularity, YearOf(d), MonthOf(d))
  }

  /** The month after the last month of the period of `month`, within the same year. */
  function MonthAfter(granularity: Granularity, month: int): (m: int)
    requires 0 <= month < 12
    ensures month < m <= 12
    ensures granularity.Quarterly? ==> m % 3 == 0
  {
    if granularity.Monthly? then month + 1 else month / 3 * 3 + 3
  }

  function NextMonth(granularity: Granularity, d: Day): int {
    MonthAfter(granularity, MonthOf(d))
  }

  /** The first day of the period after the one `d` lies in. */
  function NextPeriodStart(granularity: Granularity, d: Day): (r: Day)
    ensures d < r
  {
    if NextMonth(granularity, d) > MonthOf(d) + 1 then
      MonthsApart(InLeapYear(YearOf(d)), MonthOf(d) + 1, NextMonth(granularity, d));
      MonthStart(YearOf(d), NextMonth(granularity, d))
    else MonthStart(YearOf(d), NextMonth(granularity, d))
  }

  lemma PeriodIndexMonotone(g: Granularity, d: Day, e: Day)
    requires d <= e
    ensures PeriodIndex(g, d) <= PeriodIndex(g, e)
  {
    YearMonotone(d, e);
    if YearOf(d) == YearOf(e) && MonthOf(e) < MonthOf(d) {
      MonthsApart(InLeapYear(YearOf(d)), MonthOf(e), MonthOf(d));
    }
  }

  lemma MonthEdges(year: int, month: int)
    requires 1 <= month <= 12
    ensures var d := MonthStart(year, month) - 1; YearOf(d) == year && MonthOf(d) == month - 1
    ensures var d := MonthStart(year, month);
      if month < 12 then YearOf(d) == year && MonthOf(d) == month else YearOf(d) == year + 1 && MonthOf(d) == 0
  {
    MonthsApart(InLeapYear(year), month - 1, month);
    MonthUnique(MonthStart(year, month) - 1, year, month - 1);
    if month < 12 {
      MonthsApart(InLeapYear(year), month, month + 1);
      MonthUnique(MonthStart(year, month), year, month);
    } else {
      YearStep(year);
      MonthsApart(InLeapYear(year + 1), 0, 1);
      MonthUnique(MonthStart(year, month), year + 1, 0);
    }
  }

  lemma IndexCarry(g: Granularity, year: int, month: int, next: int)
    requires 0 <= month < 12 && next == MonthAfter(g, month)
    ensures IndexOf(g, year, next - 1) == IndexOf(g, year, month)
    ensures IndexOf(g, year, next) == IndexOf(g, year, month) + 1
    ensures next == 12 ==> IndexOf(g, year + 1, 0) == IndexOf(g, year, month) + 1
  {
  }

  lemma IndexAround(g: Granularity, year: int, month: int, next: int)
    requires 0 <= month < 12 && next == MonthAfter(g, month)
    ensures PeriodIndex(g, MonthStart(year, next)) == IndexOf(g, year, month) + 1
    ensures PeriodIndex(g, MonthStart(year, next) - 1) == IndexOf(g, year, month)
  {
    IndexCarry(g, year, month, next);
    MonthEdges(year, next);
  }

  /** The next period is the next one in the calendar. */
  lemma NextPeriodBegins(g: Granularity, d: Day)
    ensures PeriodIndex(g, NextPeriodStart(g, d)) == PeriodIndex(g, d) + 1
    ensures PeriodIndex(g, NextPeriodStart(g, d) - 1) == PeriodIndex(g, d)
  {
    hide NextPeriodStart, PeriodIndex, MonthStart, IndexOf, YearOf, MonthOf, MonthAfter;
    PeriodIndexOf(g, d);
    NextPeriodStartOf(g, d);
    IndexAround(g, YearOf(d), MonthOf(d), NextMonth(g, d));
  }

  lemma NextPeriodStartOf(g: Granularity, d: Day)
    ensures NextPeriodStart(g, d) == MonthStart(YearOf(d), NextMonth(g, d))
  {
    hide MonthStart, YearOf, MonthOf, MonthAfter;
  }

  lemma PeriodIndexOf(g: Granularity, d: Day)
    ensures PeriodIndex(g, d) == IndexOf(g, YearOf(d), MonthOf(d))
  {
  }

  lemma MonthCarry(year: int, month: int)
    requires 1 <= month <= 12
    ensures MakeDay(year, month, 0) == MonthStart(year, month) - 1
  {
    if month < 12 { MonthNormal(month); } else { YearStep(year); }
  }

  /** The end of the period is the last day before the next one, read in the 1900s for years 0..99. */
  lemma EndOfMeaning(g: Granularity, d: Day)
    ensures var y := YearOf(d);
      EndOf(g, d) == MonthStart(if TwoDigitYear(y) then 1900 + y else y, NextMonth(g, d)) - 1
    ensures !TwoDigitYear(YearOf(d)) ==> EndOf(g, d) == NextPeriodStart(g, d) - 1
  {
    var y := YearOf(d);
    MonthCarry(if TwoDigitYear(y) then 1900 + y else y, NextMonth(g, d));
  }

  lemma LaterYearLaterIndex(g: Granularity, year: int, month: int, later: int, month': int)
    requires year < later && 0 <= month < 12 && 0 <= month' < 12
    ensures IndexOf(g, year, month) < IndexOf(g, later, month')
  {
  }

  lemma EndOfTwoDigitYear(g: Granularity, d: Day)
    requires TwoDigitYear(YearOf(d))
    ensures EndOf(g, d) > d && PeriodIndex(g, EndOf(g, d)) > PeriodIndex(g, d)
  {
    EndOfMeaning(g, d);
    var end := EndOf(g, d);
    MonthEdges(1900 + YearOf(d), NextMonth(g, d));
    LaterYearLaterIndex(g, YearOf(d), MonthOf(d), YearOf(end), MonthOf(end));
    if end <= d {
      YearMonotone(end, d);
    }
  }

  /** The end of a period never comes before the day, so a period is never empty. */
  lemma EndOfNotBefore(g: Granularity, d: Day)
    ensures EndOf(g, d) >= d
  {
    if TwoDigitYear(YearOf(d)) { EndOfTwoDigitYear(g, d); } else { EndOfMeaning(g, d); }
  }

  /**
   * `endOfMonth` and `endOfQuarter` give the last day of the period that `d` lies in, with the
   * next day in the next period, exactly when the year of `d` is not one of 0..99.
   */
  lemma EndOfStaysInPeriod(g: Granularity, d: Day)
    ensures PeriodIndex(g, EndOf(g, d)) == PeriodIndex(g, d) <==> !TwoDigitYear(YearOf(d))
    ensures !TwoDigitYear(YearOf(d)) ==> PeriodIndex(g, EndOf(g, d) + 1) == PeriodIndex(g, d) + 1
  {
    if TwoDigitYear(YearOf(d)) {
      EndOfTwoDigitYear(g, d);
    } else {
      EndOfMeaning(g, d);
      NextPeriodBegins(g, d);
    }
  }

  lemma SameIndexSameEnd(g: Granularity, year: int, month: int, year': int, month': int)
    requires 0 <= month < 12 && 0 <= month' < 12 && IndexOf(g, year, month) == IndexOf(g, year', month')
    ensures year == year' && MonthAfter(g, month) == MonthAfter(g, month')
  {
  }

  /** From a day on, the end of its period stays the end until it is reached. */
  lemma EndOfWithin(g: Granularity, d: Day, e: Day)
    requires !TwoDigitYear(YearOf(d)) && d <= e <= EndOf(g, d)
    ensures EndOf(g, e) == EndOf(g, d)
  {
    hide EndOf, YearOf, MonthOf, PeriodIndex, MonthStart, IndexOf, MonthAfter;
    EndOfStaysInPeriod(g, d);
    PeriodIndexMonotone(g, d, e);
    PeriodIndexMonotone(g, e, EndOf(g, d));
    PeriodIndexOf(g, d);
    PeriodIndexOf(g, e);
    SameIndexSameEnd(g, YearOf(d), MonthOf(d), YearOf(e), MonthOf(e));
    EndOfMeaning(g, d);
    EndOfMeaning(g, e);
  }

  lemma MonthAfterLast(g: Granularity, month: int)
    requires 0 <= month < 12
    ensures MonthAfter(g, MonthAfter(g, month) - 1) == MonthAfter(g, month)
  {
  }

  /** The end of a period is its own end, in the two-digit years as well. */
  lemma EndOfTwice(g: Granularity, d: Day)
    ensures EndOf(g, EndOf(g, d)) == EndOf(g, d)
  {
    hide EndOf, YearOf, MonthOf, MonthStart, MonthAfter;
    EndOfMeaning(g, d);
    EndOfMeaning(g, EndOf(g, d));
    MonthEdges(if TwoDigitYear(YearOf(d)) then 1900 + YearOf(d) else YearOf(d), NextMonth(g, d));
    MonthAfterLast(g, MonthOf(d));
  }

  /** Before year 0 a period ends within its year, so one begins on the first day of year 0. */
  lemma EndOfBeforeYearZero(g: Granularity, d: Day)
    requires YearOf(d) < 0
    ensures EndOf(g, d) < DayFromYear(0)
    ensures YearOf(EndOf(g, d) + 1) >= 0 ==> EndOf(g, d) + 1 == DayFromYear(0)
  {
    hide EndOf, YearOf, MonthOf, MonthStart, DayFromYear, MonthAfter;
    var (y, m) := (YearOf(d), NextMonth(g, d));
    EndOfMeaning(g, d);
    MonthEdges(y, m);
    WithinYear(y, m);
    YearsApart(y + 1, 0);
  }

  lemma WithinYear(year: int, month: int)
    requires 0 <= month <= 12
    ensures MonthStart(year, month) <= MonthStart(year, 12) == DayFromYear(year + 1)
    ensures month < 12 ==> MonthStart(year, month) < MonthStart(year, 12)
  {
    YearStep(year);
    hide DayFromYear;
    if month < 12 {
      MonthsApart(InLeapYear(year), month, 12);
    }
  }

  // ---------- The days that the functions name ----------

  /** Thirty days have April, June, September and November, 28 or 29 February, and the others 31. */
  function LastDate(year: int, month: int): int {
    if month == 3 || month == 5 || month == 8 || month == 10 then 30
    else if month == 1 then (if (year % 4 == 0 && year % 100 != 0) || year % 400 == 0 then 29 else 28)
    else 31
  }

  lemma MonthHasDays(year: int, month: int)
    requires 0 <= month < 12
    ensures MonthStart(year, month + 1) - MonthStart(year, month) == LastDate(year, month)
  {
    hide DayFromYear;
  }

  /** The year that `new Date` reads for a year. */
  function ReadYear(year: int): int {
    if 0 <= year <= 99 then year + 1900 else year
  }

  /** The last day of a month has its year and month, and the last date. */
  lemma LastOfMonth(year: int, month: int)
    requires 0 <= month < 12
    ensures var e := MonthStart(year, month + 1) - 1;
      YearOf(e) == year && MonthOf(e) == month && DateOf(e) == LastDate(year, month)
  {
    hide YearOf, MonthOf, MonthStart, LastDate;
    MonthEdges(year, month + 1);
    MonthHasDays(year, month);
  }

  /** `endOfMonth` is the last day of the month, in the year that `new Date` reads. */
  lemma EndOfMonthIs(d: Day)
    ensures var (e, y) := (EndOf(Monthly, d), ReadYear(YearOf(d)));
      YearOf(e) == y && MonthOf(e) == MonthOf(d) && DateOf(e) == LastDate(y, MonthOf(d))
  {
    hide EndOf, YearOf, MonthOf, DateOf, MonthStart, LastDate;
    EndOfMeaning(Monthly, d);
    LastOfMonth(ReadYear(YearOf(d)), MonthOf(d));
  }

  /** `endOfQuarter` is the last day of March, June, September or December. */
  lemma EndOfQuarterIs(d: Day)
    ensures var (e, y, m) := (EndOf(Quarterly, d), ReadYear(YearOf(d)), MonthOf(d));
      && YearOf(e) == y
      && MonthOf(e) == (if m <= 2 then 2 else if m <= 5 then 5 else if m <= 8 then 8 else 11)
      && DateOf(e) == if m <= 2 || m >= 9 then 31 else 30
  {
    var m := MonthOf(d);
    hide EndOf, YearOf, MonthOf, DateOf, MonthStart;
    EndOfMeaning(Quarterly, d);
    QuarterOf(m);
    LastOfMonth(ReadYear(YearOf(d)), if m <= 2 then 2 else if m <= 5 then 5 else if m <= 8 then 8 else 11);
  }

  lemma QuarterOf(m: int)
    requires 0 <= m < 12
    ensures MonthAfter(Quarterly, m) == if m <= 2 then 3 else if m <= 5 then 6 else if m <= 8 then 9 else 12
  {
  }

  lemma DateWithinMonth(d: Day)
    ensures 1 <= DateOf(d) <= LastDate(YearOf(d), MonthOf(d))
  {
    hide YearOf, MonthOf, MonthStart, LastDate;
    MonthHasDays(YearOf(d), MonthOf(d));
  }

  /** A year has the same months and dates as another, but for 29 February in a common year. */
  lemma SameDateFits(year: int, other: int, month: int, date: int)
    requires 0 <= month < 12 && 1 <= date <= LastDate(year, month)
    ensures date <= LastDate(other, month) || (month == 1 && date == 29 && LastDate(other, 1) == 28)
  {
  }

  lemma FirstOfMonth(year: int, month: int)
    requires 0 <= month < 12
    ensures var e := MonthStart(year, month); YearOf(e) == year && MonthOf(e) == month && DateOf(e) == 1
  {
    hide YearOf, MonthOf, DayFromYear;
    MonthsApart(InLeapYear(year), month, month + 1);
    MonthUnique(MonthStart(year, month), year, month);
  }

  /** Years later the month and date are the same, but 29 February becomes 1 March in a common year. */
  lemma AddYearsIs(d: Day, years: int)
    ensures var (e, y, m, n) := (AddYears(d, years), YearOf(d) + years, MonthOf(d), DateOf(d));
      if n <= LastDate(y, m) then YearOf(e) == y && MonthOf(e) == m && DateOf(e) == n
      else m == 1 && n == 29 && YearOf(e) == y && MonthOf(e) == 2 && DateOf(e) == 1
  {
    var (y, m, n) := (YearOf(d) + years, MonthOf(d), DateOf(d));
    hide YearOf, MonthOf, DateOf, MonthStart;
    DateWithinMonth(d);
    SameDateFits(YearOf(d), y, m, n);
    MonthHasDays(y, m);
    if n <= LastDate(y, m) {
      FieldsOfMakeDay(y, m, n);
    } else {
      MonthNormal(m);
      FirstOfMonth(y, 2);
    }
  }
}
