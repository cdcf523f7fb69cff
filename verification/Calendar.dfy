/** Proleptic Gregorian calendar arithmetic over all integers: Hinnant's
    day-number formulas in both directions, proved against an independent
    calendar (valid dates and the successor of a date). */
module Calendar {

  datatype Date = Date(year: int, month: int, day: int)

  predicate Leap(year: int) {
    year % 4 == 0 && (year % 100 != 0 || year % 400 == 0)
  }

  function MonthLength(leap: bool, month: int): int {
    match month
    case 2 => if leap then 29 else 28
    case 4 => 30
    case 6 => 30
    case 9 => 30
    case 11 => 30
    case _ => 31
  }

  function DaysInMonth(year: int, month: int): int {
    MonthLength(Leap(year), month)
  }

  predicate Valid(date: Date) {
    1 <= date.month <= 12 && 1 <= date.day <= DaysInMonth(date.year, date.month)
  }

  /** The calendar's own rule for the day after `date`. */
  function Next(date: Date): Date {
    if date.day < DaysInMonth(date.year, date.month) then
      date.(day := date.day + 1)
    else if date.month < 12 then
      Date(date.year, date.month + 1, 1)
    else
      Date(date.year + 1, 1, 1)
  }

  // ---- The source's formulas, in March-based years ----

  function YearStart(yearOfEra: int): int {
    365 * yearOfEra + yearOfEra / 4 - yearOfEra / 100
  }

  function MonthStart(shiftedMonth: int): int {
    (153 * shiftedMonth + 2) / 5
  }

  function EraDays(era: int, dayOfEra: int): int {
    era * 146_097 + dayOfEra - 719_468
  }

  /** The year the March-based calendar counts a date in. */
  function MarchYear(date: Date): int {
    if date.month <= 2 then date.year - 1 else date.year
  }

  /** Days since 1970-01-01 of a date. */
  function DaysFromCivil(date: Date): int {
    var year := MarchYear(date);
    var shiftedMonth := (date.month + 9) % 12;
    var dayOfYear := MonthStart(shiftedMonth) + date.day - 1;
    EraDays(year / 400, YearStart(year % 400) + dayOfYear)
  }

  function YearOfEra(dayOfEra: int): int {
    (dayOfEra - dayOfEra / 1_460 + dayOfEra / 36_524 - dayOfEra / 146_096) / 365
  }

  function CivilMonth(shiftedMonth: int): int {
    if shiftedMonth < 10 then shiftedMonth + 3 else shiftedMonth - 9
  }

  function CivilInYear(year: int, dayOfYear: int): Date {
    var shiftedMonth := (5 * dayOfYear + 2) / 153;
    var day := dayOfYear - MonthStart(shiftedMonth) + 1;
    var month := CivilMonth(shiftedMonth);
    Date(year + if month <= 2 then 1 else 0, month, day)
  }

  function CivilInEra(era: int, dayOfEra: int): Date {
    var yearOfEra := YearOfEra(dayOfEra);
    CivilInYear(yearOfEra + era * 400, dayOfEra - YearStart(yearOfEra))
  }

  /** The date of a day number. */
  function CivilFromDays(days: int): Date {
    var z := days + 719_468;
    CivilInEra(z / 146_097, z % 146_097)
  }

  // ---- Years ----

  /** Length of the March-based year `y`: it ends in the February of y + 1. */
  function MarchYearLength(y: int): int {
    if Leap(y + 1) then 366 else 365
  }

  /** The quotient that corrects for leap years, computed from the digits of the date. */
  lemma {:induction false} FourYearQuotient(century: int, quad: int, r: int, dayOfYear: int)
    requires 0 <= century < 4 && 0 <= quad < 25 && 0 <= r < 4 && 0 <= dayOfYear <= 365
    requires dayOfYear == 365 ==> r == 3
    ensures var q := (36_524 * century + 1_461 * quad + 365 * r + dayOfYear) / 1_460 - 25 * century - quad;
            0 <= dayOfYear - q < 365
  {
    var u := 24 * century + quad + 365 * r + dayOfYear;
    assert 36_524 * century + 1_461 * quad + 365 * r + dayOfYear == 1_460 * (25 * century + quad) + u;
    assert 0 <= u < 2 * 1_460;
  }

  predicate Digits(y: int, century: int, quad: int, r: int) {
    0 <= century < 4 && 0 <= quad < 25 && 0 <= r < 4 && y == 100 * century + 4 * quad + r
  }

  lemma {:induction false} YearByDigits(y: int, century: int, quad: int, r: int)
    requires Digits(y, century, quad, r)
    ensures YearStart(y) == 36_524 * century + 1_461 * quad + 365 * r
    ensures Leap(y + 1) <==> r == 3 && (quad == 24 ==> century == 3)
  {
    assert y / 100 == century;
    assert y / 4 == 25 * century + quad;
    assert (y + 1) % 4 == 0 <==> r == 3;
    assert (y + 1) % 100 == 0 <==> quad == 24 && r == 3 by {
      assert (y + 1) % 100 == if quad == 24 && r == 3 then 0 else 4 * quad + r + 1;
    }
    assert (y + 1) % 400 == 0 <==> y + 1 == 400;
  }

  lemma {:induction false} CenturyQuotient(century: int, quad: int, r: int, dayOfYear: int)
    requires Digits(100 * century + 4 * quad + r, century, quad, r) && 0 <= dayOfYear <= 365
    requires dayOfYear == 365 ==> r == 3 && (quad == 24 ==> century == 3)
    ensures var doe := 36_524 * century + 1_461 * quad + 365 * r + dayOfYear;
            0 <= doe < 146_097 && doe / 36_524 - doe / 146_096 == century
  {
    var e := 1_461 * quad + 365 * r + dayOfYear;
    assert 0 <= e <= 36_524 && (e == 36_524 ==> century == 3);
    var doe := 36_524 * century + e;
    if e == 36_524 {
      assert doe == 146_096;
    } else {
      assert doe / 36_524 == century;
      assert doe < 146_096;
    }
  }

  /** The year formula inverts the start of the year plus a day within it. */
  lemma {:induction false} YearOfEraExact(y: int, dayOfYear: int)
    requires 0 <= y < 400 && 0 <= dayOfYear < MarchYearLength(y)
    ensures YearOfEra(YearStart(y) + dayOfYear) == y
    ensures 0 <= YearStart(y) + dayOfYear < 146_097
  {
    var century, quad, r := y / 100, y % 100 / 4, y % 4;
    YearByDigits(y, century, quad, r);
    CenturyQuotient(century, quad, r, dayOfYear);
    FourYearQuotient(century, quad, r, dayOfYear);
  }

  /** Every day of an era falls in the year the formula names. */
  lemma {:induction false} YearOfEraCovers(dayOfEra: int)
    requires 0 <= dayOfEra < 146_097
    ensures var y := YearOfEra(dayOfEra);
            0 <= y < 400 && 0 <= dayOfEra - YearStart(y) < MarchYearLength(y)
  {
    var y := FindYear(dayOfEra, 0);
    YearOfEraExact(y, dayOfEra - YearStart(y));
  }

  lemma {:induction false} YearStartStep(y: int)
    requires 0 <= y < 400
    ensures YearStart(y) + MarchYearLength(y) == if y == 399 then 146_097 else YearStart(y + 1)
  {
    var century, quad, r := y / 100, y % 100 / 4, y % 4;
    YearByDigits(y, century, quad, r);
  }

  /** The years of an era tile its days. */
  lemma {:induction false} FindYear(dayOfEra: int, from: int) returns (y: int)
    requires 0 <= from < 400 && YearStart(from) <= dayOfEra < 146_097
    ensures from <= y < 400 && 0 <= dayOfEra - YearStart(y) < MarchYearLength(y)
    decreases 400 - from
  {
    YearStartStep(from);
    if dayOfEra < YearStart(from) + MarchYearLength(from) {
      y := from;
    } else {
      y := FindYear(dayOfEra, from + 1);
    }
  }

  lemma {:induction false} LeapPeriod(year: int, era: int)
    ensures Leap(year + 400 * era) == Leap(year)
  {
    Mod4(year, era);
    Mod100(year, era);
    Mod400(year, era);
  }

  lemma {:induction false} Mod4(a: int, k: int)
    ensures (a + 400 * k) % 4 == a % 4
  {
    assert a + 400 * k == 4 * (a / 4 + 100 * k) + a % 4;
  }

  lemma {:induction false} Mod100(a: int, k: int)
    ensures (a + 400 * k) % 100 == a % 100
  {
    assert a + 400 * k == 100 * (a / 100 + 4 * k) + a % 100;
  }

  lemma {:induction false} Mod400(a: int, k: int)
    ensures (a + 400 * k) % 400 == a % 400
  {
    assert a + 400 * k == 400 * (a / 400 + k) + a % 400;
  }

  /** The length of a March-based year is decided by its place in the era. */
  lemma {:induction false} MarchYearPeriod(year: int)
    ensures MarchYearLength(year % 400) == MarchYearLength(year)
  {
    LeapPeriod(year % 400 + 1, year / 400);
  }

  lemma {:induction false} EraSplit(era: int, dayOfEra: int)
    requires 0 <= dayOfEra < 146_097
    ensures var z := EraDays(era, dayOfEra) + 719_468; z / 146_097 == era && z % 146_097 == dayOfEra
  {
    var z := EraDays(era, dayOfEra) + 719_468;
    assert z == era * 146_097 + dayOfEra;
  }

  // ---- Months ----

  /** A month starts where the one before it ends; February absorbs the leap day. */
  lemma {:induction false} MonthTiles(leap: bool, shiftedMonth: int)
    requires 0 <= shiftedMonth < 12
    ensures MonthStart(shiftedMonth) + MonthLength(leap, CivilMonth(shiftedMonth))
            == if shiftedMonth < 11 then MonthStart(shiftedMonth + 1) else if leap then 366 else 365
    ensures 1 <= CivilMonth(shiftedMonth) <= 12 && (CivilMonth(shiftedMonth) + 9) % 12 == shiftedMonth
  {
  }

  lemma {:induction false} ShiftBack(month: int)
    requires 1 <= month <= 12
    ensures CivilMonth((month + 9) % 12) == month
  {
  }

  lemma {:induction false} MonthFormula(shiftedMonth: int, dayOfYear: int)
    requires 0 <= shiftedMonth < 12 && MonthStart(shiftedMonth) <= dayOfYear <= 365
    requires shiftedMonth < 11 ==> dayOfYear < MonthStart(shiftedMonth + 1)
    ensures (5 * dayOfYear + 2) / 153 == shiftedMonth
  {
  }

  /** Days that are not past the end of the year fall in the month the formula names. */
  lemma {:induction false} MonthCovers(dayOfYear: int)
    requires 0 <= dayOfYear <= 365
    ensures var m := (5 * dayOfYear + 2) / 153;
            0 <= m < 12 && MonthStart(m) <= dayOfYear && (m < 11 ==> dayOfYear < MonthStart(m + 1))
  {
  }

  /** A day within a March-based year is a real date of that year. */
  lemma {:induction false} CivilInYearValid(year: int, dayOfYear: int)
    requires 0 <= dayOfYear < MarchYearLength(year)
    ensures var date := CivilInYear(year, dayOfYear);
            && Valid(date) && MarchYear(date) == year
            && MonthStart((date.month + 9) % 12) + date.day - 1 == dayOfYear
  {
    var leap := Leap(year + 1);
    MonthCovers(dayOfYear);
    var m := (5 * dayOfYear + 2) / 153;
    MonthTiles(leap, m);
    var date := CivilInYear(year, dayOfYear);
    assert date.month == 2 ==> date.year == year + 1;
  }

  /** A real date is a day within its March-based year. */
  lemma {:induction false} DateInYear(date: Date)
    requires Valid(date)
    ensures var dayOfYear := MonthStart((date.month + 9) % 12) + date.day - 1;
            && 0 <= dayOfYear < MarchYearLength(MarchYear(date))
            && CivilInYear(MarchYear(date), dayOfYear) == date
  {
    var m := (date.month + 9) % 12;
    ShiftBack(date.month);
    MonthTiles(Leap(date.year), m);
    MonthEndsInYear(m, Leap(date.year));
    MonthFormula(m, MonthStart(m) + date.day - 1);
  }

  lemma {:induction false} MonthEndsInYear(shiftedMonth: int, leap: bool)
    requires 0 <= shiftedMonth < 12
    ensures 0 <= MonthStart(shiftedMonth)
    ensures shiftedMonth < 11 ==> MonthStart(shiftedMonth + 1) <= 337
  {
  }

  // ---- Main results ----

  lemma {:induction false} CivilInYearDays(year: int, dayOfYear: int)
    requires 0 <= dayOfYear < MarchYearLength(year)
    ensures Valid(CivilInYear(year, dayOfYear))
    ensures DaysFromCivil(CivilInYear(year, dayOfYear)) == EraDays(year / 400, YearStart(year % 400) + dayOfYear)
  {
    CivilInYearValid(year, dayOfYear);
  }

  lemma {:induction false} CivilInEraDays(era: int, dayOfEra: int)
    requires 0 <= dayOfEra < 146_097
    ensures Valid(CivilInEra(era, dayOfEra))
    ensures DaysFromCivil(CivilInEra(era, dayOfEra)) == EraDays(era, dayOfEra)
  {
    YearOfEraCovers(dayOfEra);
    CivilInEraYear(era, YearOfEra(dayOfEra), dayOfEra - YearStart(YearOfEra(dayOfEra)));
  }

  lemma {:induction false} EraYear(era: int, y: int)
    requires 0 <= y < 400
    ensures (y + era * 400) / 400 == era && (y + era * 400) % 400 == y
  {
  }

  lemma {:induction false} CivilInEraYear(era: int, y: int, dayOfYear: int)
    requires 0 <= y < 400 && 0 <= dayOfYear < MarchYearLength(y)
    ensures Valid(CivilInYear(y + era * 400, dayOfYear))
    ensures DaysFromCivil(CivilInYear(y + era * 400, dayOfYear)) == EraDays(era, YearStart(y) + dayOfYear)
  {
    EraYear(era, y);
    MarchYearPeriod(y + era * 400);
    CivilInYearDays(y + era * 400, dayOfYear);
  }

  /** Every day number is a real calendar date, and its number is recovered. */
  lemma {:induction false} CivilRoundTrip(days: int)
    ensures Valid(CivilFromDays(days))
    ensures DaysFromCivil(CivilFromDays(days)) == days
  {
    var z := days + 719_468;
    CivilInEraDays(z / 146_097, z % 146_097);
  }

  lemma {:induction false} CivilOfEraYear(era: int, y: int, dayOfYear: int)
    requires 0 <= y < 400 && 0 <= dayOfYear < MarchYearLength(y)
    ensures CivilFromDays(EraDays(era, YearStart(y) + dayOfYear)) == CivilInYear(y + era * 400, dayOfYear)
  {
    YearOfEraExact(y, dayOfYear);
    EraSplit(era, YearStart(y) + dayOfYear);
  }

  lemma {:induction false} CivilOfYearDay(year: int, dayOfYear: int)
    requires 0 <= dayOfYear < MarchYearLength(year)
    ensures CivilFromDays(EraDays(year / 400, YearStart(year % 400) + dayOfYear)) == CivilInYear(year, dayOfYear)
  {
    MarchYearPeriod(year);
    CivilOfEraYear(year / 400, year % 400, dayOfYear);
  }

  lemma {:induction false} DaysRoundTripInYear(date: Date, year: int, dayOfYear: int)
    requires year == MarchYear(date) && dayOfYear == MonthStart((date.month + 9) % 12) + date.day - 1
    requires 0 <= dayOfYear < MarchYearLength(year)
    ensures CivilFromDays(DaysFromCivil(date)) == CivilInYear(year, dayOfYear)
  {
    CivilOfYearDay(year, dayOfYear);
  }

  /** On real dates the day number determines the date. */
  lemma {:induction false} DaysRoundTrip(date: Date)
    requires Valid(date)
    ensures CivilFromDays(DaysFromCivil(date)) == date
  {
    DateInYear(date);
    DaysRoundTripInYear(date, MarchYear(date), MonthStart((date.month + 9) % 12) + date.day - 1);
  }

  lemma {:induction false} YearBoundary(year: int)
    ensures EraDays((year + 1) / 400, YearStart((year + 1) % 400))
         == EraDays(year / 400, YearStart(year % 400)) + MarchYearLength(year)
  {
    YearStartStep(year % 400);
    MarchYearPeriod(year);
    if year % 400 == 399 {
      assert (year + 1) / 400 == year / 400 + 1 && (year + 1) % 400 == 0;
    } else {
      assert (year + 1) / 400 == year / 400 && (year + 1) % 400 == year % 400 + 1;
    }
  }

  lemma {:induction false} NextInMonth(date: Date)
    requires Valid(date) && date.day < DaysInMonth(date.year, date.month)
    ensures DaysFromCivil(Next(date)) == DaysFromCivil(date) + 1
  {
  }

  lemma {:induction false} NextMonth(year: int, month: int)
    requires 1 <= month <= 12 && month != 2
    ensures var date := Date(year, month, DaysInMonth(year, month));
            DaysFromCivil(Next(date)) == DaysFromCivil(date) + 1
  {
    var m := (month + 9) % 12;
    ShiftBack(month);
    MonthTiles(Leap(year), m);
    var date := Date(year, month, DaysInMonth(year, month));
    assert MarchYear(Next(date)) == MarchYear(date);
    assert Next(date).day == 1 && (Next(date).month + 9) % 12 == m + 1;
  }

  lemma {:induction false} DaysOfMarch(year: int)
    ensures DaysFromCivil(Date(year, 3, 1)) == EraDays(year / 400, YearStart(year % 400))
  {
  }

  lemma {:induction false} DaysOfFebruary(year: int, day: int)
    ensures DaysFromCivil(Date(year, 2, day)) == EraDays((year - 1) / 400, YearStart((year - 1) % 400)) + 336 + day
  {
  }

  lemma {:induction false} MarchFirst(year: int)
    ensures var date := Date(year, 2, DaysInMonth(year, 2));
            DaysFromCivil(Next(date)) == DaysFromCivil(date) + 1
  {
    var length := DaysInMonth(year, 2);
    DaysOfMarch(year);
    DaysOfFebruary(year, length);
    YearBoundary(year - 1);
    assert MarchYearLength(year - 1) == 337 + length;
    assert Next(Date(year, 2, length)) == Date(year, 3, 1);
  }

  /** The successor of a real date is a real date, one day later. */
  lemma {:induction false} NextIsOneDayLater(date: Date)
    requires Valid(date)
    ensures Valid(Next(date))
    ensures DaysFromCivil(Next(date)) == DaysFromCivil(date) + 1
  {
    if date.day < DaysInMonth(date.year, date.month) {
      NextInMonth(date);
    } else {
      if date.month == 2 {
        MarchFirst(date.year);
      } else {
        NextMonth(date.year, date.month);
      }
    }
  }

  /** Consecutive day numbers are consecutive calendar dates. */
  lemma {:induction false} ConsecutiveDays(days: int)
    ensures CivilFromDays(days + 1) == Next(CivilFromDays(days))
  {
    var date := CivilFromDays(days);
    CivilRoundTrip(days);
    NextIsOneDayLater(date);
    DaysRoundTrip(Next(date));
  }

  /** Day zero is the Unix epoch: with ConsecutiveDays this fixes the date of every day number. */
  lemma {:induction false} Epoch()
    ensures CivilFromDays(0) == Date(1970, 1, 1)
  {
    assert YearStart(369) + 306 == 135_080 && EraDays(4, 135_080) == 0;
    CivilOfEraYear(4, 369, 306);
  }
}
