// Calendar arithmetic in UTC: which date a day number is, and back.

module Civil {
  import opened Basics

  const EPOCH_SHIFT := 719_468
  const ERA := 146_097

  datatype Date = Date(year: int, month: int, day: int)

  /** Division as the source's machine does it: towards zero. */
  function Truncated(a: int, b: int): int
    requires b > 0
  {
    if a >= 0 then a / b else -((-a) / b)
  }

  function YearOfEra(dayOfEra: int): int {
    (dayOfEra - dayOfEra / 1460 + dayOfEra / 36_524 - dayOfEra / 146_096) / 365
  }

  /** Days of an era before its year `y` (years begin in March). */
  function YearStart(y: int): int { 365 * y + y / 4 - y / 100 }

  /** Days of a March-based year before its month `m`. */
  function MonthStart(m: int): int { (153 * m + 2) / 5 }

  function DateOf(days: int): Date {
    var shifted := days + EPOCH_SHIFT;
    var era := Truncated(if shifted >= 0 then shifted else shifted - 146_096, ERA);
    var dayOfEra := shifted - era * ERA;
    var yearOfEra := YearOfEra(dayOfEra);
    var year := yearOfEra + era * 400;
    var dayOfYear := dayOfEra - YearStart(yearOfEra);
    var shiftedMonth := (5 * dayOfYear + 2) / 153;
    var day := dayOfYear - MonthStart(shiftedMonth) + 1;
    var month := if shiftedMonth < 10 then shiftedMonth + 3 else shiftedMonth - 9;
    Date(if month <= 2 then year + 1 else year, month, day)
  }

  function DaysOf(date: Date): int {
    var year := if date.month <= 2 then date.year - 1 else date.year;
    var era := Truncated(if year >= 0 then year else year - 399, 400);
    var yearOfEra := year - era * 400;
    var shiftedMonth := if date.month > 2 then date.month - 3 else date.month + 9;
    var dayOfYear := MonthStart(shiftedMonth) + date.day - 1;
    var dayOfEra := yearOfEra * 365 + yearOfEra / 4 - yearOfEra / 100 + dayOfYear;
    era * ERA + dayOfEra - EPOCH_SHIFT
  }

  // --- The calendar as people state it ---------------------------------------------------------

  predicate Leap(year: int) { year % 4 == 0 && (year % 100 != 0 || year % 400 == 0) }

  function DaysIn(year: int, month: int): int {
    if month == 2 then (if Leap(year) then 29 else 28)
    else if month == 4 || month == 6 || month == 9 || month == 11 then 30
    else 31
  }

  predicate IsDate(date: Date) {
    1 <= date.month <= 12 && 1 <= date.day <= DaysIn(date.year, date.month)
  }

  function NextDay(date: Date): Date {
    if date.day < DaysIn(date.year, date.month) then date.(day := date.day + 1)
    else if date.month < 12 then Date(date.year, date.month + 1, 1)
    else Date(date.year + 1, 1, 1)
  }

  // --- A day number as era, year and day of year -----------------------------------------------

  /** How long the March-based year `y` of an era is: it ends with the February of the next one. */
  function YearLength(y: int): int { if Leap(y + 1) then 366 else 365 }

  lemma YearStarts(y: int)
    requires 0 <= y < 400
    ensures y < 399 ==> YearStart(y + 1) == YearStart(y) + YearLength(y)
    ensures y == 399 ==> YearStart(y) + YearLength(y) == ERA
  {
    var c, q, p := y / 100, y % 100 / 4, y % 4;
    DivModUnique(y % 100, 4, q, p);
    assert y == 100 * c + 4 * q + p;
    StartOfCut(c, q, p);
    if p < 3 {
      StartOfCut(c, q, p + 1);
    } else if q < 24 {
      StartOfCut(c, q + 1, 0);
    } else if c < 3 {
      StartOfCut(c + 1, 0, 0);
    }
  }

  /** A day of an era, cut into centuries, four-year cycles, years and days. */
  ghost predicate Cuts(dayOfEra: int, c: int, q: int, p: int, t: int) {
    && 0 <= c <= 3 && 0 <= q <= 24 && 0 <= p <= 3 && 0 <= t <= 365
    && dayOfEra == 36_524 * c + 1461 * q + 365 * p + t
    && (t == 365 ==> p == 3 && (q < 24 || c == 3))
  }

  lemma CutUp(dayOfEra: int) returns (c: int, q: int, p: int, t: int)
    requires 0 <= dayOfEra < ERA
    ensures Cuts(dayOfEra, c, q, p, t)
  {
    c := if dayOfEra == ERA - 1 then 3 else dayOfEra / 36_524;
    var r := dayOfEra - 36_524 * c;
    q := r / 1461;
    var s := r - 1461 * q;
    p := if s == 1460 then 3 else s / 365;
    t := s - 365 * p;
  }

  lemma YearOfCut(dayOfEra: int, c: int, q: int, p: int, t: int)
    requires Cuts(dayOfEra, c, q, p, t)
    ensures YearOfEra(dayOfEra) == 100 * c + 4 * q + p
  {
    var rest := 24 * c + q + 365 * p + t;
    var b := if rest >= 1460 then 1 else 0;
    var last := if dayOfEra == ERA - 1 then 1 else 0;
    DivModUnique(dayOfEra, 1460, 25 * c + q + b, rest - 1460 * b);
    DivModUnique(dayOfEra, 36_524, c + last, dayOfEra - 36_524 * (c + last));
    DivModUnique(dayOfEra, 146_096, last, dayOfEra - 146_096 * last);
    DivModUnique(365 * (100 * c + 4 * q + p) + t - b, 365, 100 * c + 4 * q + p, t - b);
  }

  lemma StartOfCut(c: int, q: int, p: int)
    requires 0 <= c <= 3 && 0 <= q <= 24 && 0 <= p <= 3
    ensures var y := 100 * c + 4 * q + p;
      && YearStart(y) == 36_524 * c + 1461 * q + 365 * p
      && (Leap(y + 1) <==> p == 3 && (q < 24 || c == 3))
  {
    var y := 100 * c + 4 * q + p;
    DivModUnique(y, 4, 25 * c + q, p);
    DivModUnique(y, 100, c, 4 * q + p);
  }

  /** The closed form for the year finds the one whose days hold this one. */
  lemma YearHolds(dayOfEra: int)
    requires 0 <= dayOfEra < ERA
    ensures var y := YearOfEra(dayOfEra); 0 <= y < 400 && YearStart(y) <= dayOfEra < YearStart(y) + YearLength(y)
  {
    hide YearOfEra, YearStart, Leap;
    var c, q, p, t := CutUp(dayOfEra);
    YearOfCut(dayOfEra, c, q, p, t);
    StartOfCut(c, q, p);
  }

  lemma YearsGrow(a: int, b: int)
    requires 0 <= a <= b
    ensures YearStart(a) <= YearStart(b)
  {
  }

  /** A day belongs to one year only. */
  lemma YearOnly(dayOfEra: int, y: int)
    requires 0 <= dayOfEra < ERA && 0 <= y < 400 && YearStart(y) <= dayOfEra < YearStart(y) + YearLength(y)
    ensures YearOfEra(dayOfEra) == y
  {
    hide YearOfEra, YearStart, YearLength;
    var z := YearOfEra(dayOfEra);
    YearHolds(dayOfEra);
    YearStarts(y);
    YearStarts(z);
    if y < z {
      YearsGrow(y + 1, z);
    } else if z < y {
      YearsGrow(z + 1, y);
    }
  }

  // --- The day of a year as month and day ------------------------------------------------------

  function MonthOfYear(dayOfYear: int): int { (5 * dayOfYear + 2) / 153 }

  /** Months counted from March, the last being February, which is given its leap day. */
  function LongestMonth(m: int): int {
    if m == 11 then 29 else if m == 1 || m == 3 || m == 6 || m == 8 then 30 else 31
  }

  lemma MonthStarts(m: int)
    requires 0 <= m < 11
    ensures MonthStart(m + 1) == MonthStart(m) + LongestMonth(m)
  {
  }

  lemma MonthHolds(dayOfYear: int)
    requires 0 <= dayOfYear <= 365
    ensures var m := MonthOfYear(dayOfYear);
      0 <= m <= 11 && MonthStart(m) <= dayOfYear < MonthStart(m) + LongestMonth(m)
  {
    var m := MonthOfYear(dayOfYear);
    assert 153 * m <= 5 * dayOfYear + 2 < 153 * (m + 1);
    assert m <= 11;
  }

  lemma MonthOnly(dayOfYear: int, m: int)
    requires 0 <= dayOfYear <= 365 && 0 <= m <= 11 && MonthStart(m) <= dayOfYear < MonthStart(m) + LongestMonth(m)
    ensures MonthOfYear(dayOfYear) == m
  {
    DivModUnique(5 * dayOfYear + 2, 153, m, 5 * dayOfYear + 2 - 153 * m);
  }

  // --- The whole date --------------------------------------------------------------------------

  lemma FloorDivides(x: int, d: int)
    requires d > 0
    ensures Truncated(if x >= 0 then x else x - (d - 1), d) == x / d
  {
    if x < 0 {
      var q, r := x / d, x % d;
      DivModUnique(d - 1 - x, d, -q, d - 1 - r);
    }
  }

  /** A date by its era, the year of that era (beginning in March) and the day of that year. */
  function Assembled(era: int, y: int, dayOfYear: int): Date {
    var m := MonthOfYear(dayOfYear);
    Date(y + era * 400 + (if m < 10 then 0 else 1), if m < 10 then m + 3 else m - 9, dayOfYear - MonthStart(m) + 1)
  }

  lemma DateByParts(days: int, era: int, y: int, dayOfYear: int)
    requires 0 <= y < 400 && 0 <= dayOfYear < YearLength(y)
    requires days + EPOCH_SHIFT == era * ERA + YearStart(y) + dayOfYear
    ensures DateOf(days) == Assembled(era, y, dayOfYear)
  {
    hide YearOfEra, YearStart, YearLength, MonthStart;
    var shifted := days + EPOCH_SHIFT;
    var dayOfEra := YearStart(y) + dayOfYear;
    EraHolds(y);
    FloorDivides(shifted, ERA);
    DivModUnique(shifted, ERA, era, dayOfEra);
    YearOnly(dayOfEra, y);
    LengthBound(y);
    MonthHolds(dayOfYear);
  }

  lemma EraHolds(y: int)
    requires 0 <= y < 400
    ensures 0 <= YearStart(y) && YearStart(y) + YearLength(y) <= ERA
  {
    YearStarts(y);
  }

  lemma LengthBound(y: int)
    ensures 365 <= YearLength(y) <= 366
  {
  }

  /** Every day number is some day of some year of some era. */
  lemma Parts(days: int) returns (era: int, y: int, dayOfYear: int)
    ensures 0 <= y < 400 && 0 <= dayOfYear < YearLength(y)
    ensures days + EPOCH_SHIFT == era * ERA + YearStart(y) + dayOfYear
  {
    hide YearOfEra, YearStart, YearLength;
    var shifted := days + EPOCH_SHIFT;
    era := shifted / ERA;
    y := YearOfEra(shifted % ERA);
    YearHolds(shifted % ERA);
    dayOfYear := shifted % ERA - YearStart(y);
  }

  /** Every day number is recovered from its date. */
  lemma DateRoundTrip(days: int)
    ensures DaysOf(DateOf(days)) == days
  {
    hide YearLength, MonthStart, MonthOfYear, DateOf;
    var era, y, dayOfYear := Parts(days);
    DateByParts(days, era, y, dayOfYear);
    LengthBound(y);
    MonthHolds(dayOfYear);
    FloorDivides(y + era * 400, 400);
    DivModUnique(y + era * 400, 400, era, y);
  }

  lemma LeapRepeats(y: int, era: int)
    ensures Leap(y + era * 400) <==> Leap(y)
  {
    var z := y + era * 400;
    DivModUnique(z, 4, y / 4 + 100 * era, y % 4);
    DivModUnique(z, 100, y / 100 + 4 * era, y % 100);
    DivModUnique(z, 400, y / 400 + era, y % 400);
  }

  /** How long the month of a date really is. */
  lemma MonthLength(era: int, y: int, dayOfYear: int)
    requires 0 <= y < 400 && 0 <= dayOfYear < YearLength(y)
    ensures var date, m := Assembled(era, y, dayOfYear), MonthOfYear(dayOfYear);
      DaysIn(date.year, date.month) == if m == 11 then YearLength(y) - MonthStart(11) else LongestMonth(m)
  {
    hide MonthOfYear;
    LengthBound(y);
    MonthHolds(dayOfYear);
    LeapRepeats(y + 1, era);
    assert MonthStart(11) == 337;
  }

  /** Every date of the Gregorian calendar is recovered from its day number. */
  lemma DaysRoundTrip(date: Date)
    requires IsDate(date)
    ensures DateOf(DaysOf(date)) == date
  {
    hide YearLength, YearStart, MonthStart, MonthOfYear, DateOf, LongestMonth, Leap;
    var m := if date.month > 2 then date.month - 3 else date.month + 9;
    var year := if date.month <= 2 then date.year - 1 else date.year;
    var era, y := year / 400, year % 400;
    var dayOfYear := MonthStart(m) + date.day - 1;
    FloorDivides(year, 400);
    DayInYear(date, m, y, era);
    LengthBound(y);
    YearUnfolds(y);
    DateByParts(DaysOf(date), era, y, dayOfYear);
    MonthOnly(dayOfYear, m);
  }

  lemma YearUnfolds(y: int)
    ensures YearStart(y) == y * 365 + y / 4 - y / 100
  {
  }

  lemma DayInYear(date: Date, m: int, y: int, era: int)
    requires IsDate(date) && m == (if date.month > 2 then date.month - 3 else date.month + 9)
    requires era * 400 + y == if date.month <= 2 then date.year - 1 else date.year
    ensures 0 <= m <= 11 && 0 <= MonthStart(m)
    ensures date.day <= LongestMonth(m) && MonthStart(m) + date.day <= YearLength(y)
  {
    LeapRepeats(y + 1, era);
    if m == 11 {
      LastMonth(m);
    } else {
      MonthEndsBefore(m);
    }
  }

  lemma MonthEndsBefore(m: int)
    requires 0 <= m < 11
    ensures 0 <= MonthStart(m) && MonthStart(m) + LongestMonth(m) <= 337
    decreases 11 - m
  {
    if m < 10 {
      MonthEndsBefore(m + 1);
      MonthStarts(m);
    }
  }

  lemma DateIsDate(days: int)
    ensures IsDate(DateOf(days))
  {
    hide YearLength, MonthStart, MonthOfYear, DateOf, DaysIn;
    var era, y, dayOfYear := Parts(days);
    DateByParts(days, era, y, dayOfYear);
    LengthBound(y);
    MonthHolds(dayOfYear);
    MonthLength(era, y, dayOfYear);
  }

  lemma FirstMonth(zero: int)
    requires zero == 0
    ensures MonthStart(zero) == 0 && MonthOfYear(zero) == 0
  {
    DivModUnique(2, 153, 0, 2);
  }

  lemma LastMonth(eleven: int)
    requires eleven == 11
    ensures MonthStart(eleven) == 337 && LongestMonth(eleven) == 29
  {
    DivModUnique(1685, 5, 337, 0);
  }

  lemma MonthBounds(m: int)
    ensures 29 <= LongestMonth(m) <= 31
  {
  }

  /** The day after the last of a March-based year is the first of March. */
  lemma NewYear(days: int, era: int, y: int)
    requires 0 <= y < 400 && days + EPOCH_SHIFT == era * ERA + YearStart(y) + YearLength(y)
    ensures DateOf(days) == Date(y + 1 + era * 400, 3, 1)
  {
    hide YearLength, YearStart, MonthStart, MonthOfYear, DateOf;
    YearStarts(y);
    FirstMonth(0);
    if y < 399 {
      LengthBound(y + 1);
      DateByParts(days, era, y + 1, 0);
    } else {
      LengthBound(0);
      assert YearStart(0) == 0 by { FirstYear(); }
      DateByParts(days, era + 1, 0, 0);
    }
  }

  lemma FirstYear()
    ensures YearStart(0) == 0
  {
  }

  /** Day numbers count calendar days: the day after is the next date, by the Gregorian rules, and
      day zero is the first of January 1970. */
  lemma NextDayFollows(days: int)
    ensures DateOf(days + 1) == NextDay(DateOf(days))
  {
    hide YearLength, YearStart, MonthStart, MonthOfYear, DateOf, DaysIn, LongestMonth;
    var era, y, dayOfYear := Parts(days);
    DateByParts(days, era, y, dayOfYear);
    LengthBound(y);
    MonthHolds(dayOfYear);
    MonthLength(era, y, dayOfYear);
    LastMonth(11);
    var m := MonthOfYear(dayOfYear);
    if dayOfYear + 1 < YearLength(y) {
      DateByParts(days + 1, era, y, dayOfYear + 1);
      if dayOfYear + 1 < MonthStart(m) + LongestMonth(m) {
        MonthOnly(dayOfYear + 1, m);
      } else {
        MonthStarts(m);
        MonthBounds(m + 1);
        MonthOnly(dayOfYear + 1, m + 1);
      }
    } else {
      MonthOnly(dayOfYear, 11);
      NewYear(days + 1, era, y);
    }
  }

  lemma Epoch()
    ensures DateOf(0) == Date(1970, 1, 1)
  {
  }
}
