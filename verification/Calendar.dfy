/** The closed-form Gregorian date of a day number, against the calendar itself. */
module Calendar {
  datatype Date = Date(year: int, month: int, day: int)

  // ----- the calendar -----

  predicate IsLeap(year: int) {
    year % 4 == 0 && (year % 100 != 0 || year % 400 == 0)
  }

  function DaysInMonth(year: int, month: int): int
    requires 1 <= month <= 12
  {
    if month == 2 then (if IsLeap(year) then 29 else 28)
    else if month == 4 || month == 6 || month == 9 || month == 11 then 30
    else 31
  }

  predicate IsDate(d: Date) {
    1 <= d.month <= 12 && 1 <= d.day <= DaysInMonth(d.year, d.month)
  }

  /** The day after. */
  function Tomorrow(d: Date): Date
    requires IsDate(d)
  {
    if d.day < DaysInMonth(d.year, d.month) then d.(day := d.day + 1)
    else if d.month < 12 then Date(d.year, d.month + 1, 1)
    else Date(d.year + 1, 1, 1)
  }

  predicate Before(a: Date, b: Date) {
    a.year < b.year || (a.year == b.year && (a.month < b.month || (a.month == b.month && a.day < b.day)))
  }

  // ----- the closed form -----

  /** The source's date, with the year counted from March while it is worked out. */
  function CivilDate(days: int): Date {
    var shifted := days + 719468;
    var era := shifted / 146097;
    var dayOfEra := shifted - era * 146097;
    var yearOfEra := YearOfEra(dayOfEra);
    var dayOfYear := dayOfEra - (365 * yearOfEra + yearOfEra / 4 - yearOfEra / 100);
    var monthPrime := (5 * dayOfYear + 2) / 153;
    var day := dayOfYear - (153 * monthPrime + 2) / 5 + 1;
    var month := monthPrime + if monthPrime < 10 then 3 else -9;
    Date(yearOfEra + era * 400 + (if month <= 2 then 1 else 0), month, day)
  }

  function YearOfEra(dayOfEra: int): int {
    (dayOfEra - dayOfEra / 1460 + dayOfEra / 36524 - dayOfEra / 146096) / 365
  }

  // ----- its inverse -----

  /**
   A date in the arithmetic's own terms: a 400-year era from the first of March, the year in it, the day of that year.
   */
  datatype Shifted = Shifted(era: int, year: int, day: int)

  /** The year that ends with February has 366 days when that February has 29. */
  function LengthOfShifted(year: int): int {
    if (year + 1) % 4 == 0 && ((year + 1) % 100 != 0 || year == 399) then 366 else 365
  }

  predicate IsShifted(s: Shifted) {
    0 <= s.year < 400 && 0 <= s.day < LengthOfShifted(s.year)
  }

  function DaysBeforeYear(year: int): int {
    365 * year + year / 4 - year / 100
  }

  function DaysOfShifted(s: Shifted): int {
    s.era * 146097 + DaysBeforeYear(s.year) + s.day - 719468
  }

  function FirstOfMonth(monthPrime: int): int {
    (153 * monthPrime + 2) / 5
  }

  function MonthPrime(month: int): int {
    if month >= 3 then month - 3 else month + 9
  }

  function ShiftedOf(d: Date): Shifted
    requires IsDate(d)
  {
    var year := if d.month <= 2 then d.year - 1 else d.year;
    Shifted(year / 400, year % 400, FirstOfMonth(MonthPrime(d.month)) + d.day - 1)
  }

  /** The day number of a date. */
  function DaysOf(d: Date): int
    requires IsDate(d)
  {
    DaysOfShifted(ShiftedOf(d))
  }

  function DateOfShifted(s: Shifted): Date {
    var monthPrime := (5 * s.day + 2) / 153;
    var month := monthPrime + if monthPrime < 10 then 3 else -9;
    Date(s.year + s.era * 400 + (if month <= 2 then 1 else 0), month, s.day - FirstOfMonth(monthPrime) + 1)
  }

  // ----- eras and years -----

  /** The years of an era by centuries, four-year cycles and years; the day count by the same. */
  lemma DaysBeforeYearSplit(year: int, c: int, q: int, r: int)
    requires 0 <= c < 4 && 0 <= q < 25 && 0 <= r < 4 && year == 100 * c + 4 * q + r
    ensures DaysBeforeYear(year) == 36524 * c + 1461 * q + 365 * r
    ensures LengthOfShifted(year) == 366 <==> r == 3 && (q != 24 || c == 3)
  {
    assert year / 100 == c && year / 4 == 25 * c + q;
    assert year + 1 == 100 * c + 4 * q + r + 1;
  }

  lemma YearOfEraSplit(c: int, q: int, r: int, day: int)
    requires 0 <= c < 4 && 0 <= q < 25 && 0 <= r < 4 && 0 <= day
    requires day < if r == 3 && (q != 24 || c == 3) then 366 else 365
    ensures YearOfEra(36524 * c + 1461 * q + 365 * r + day) == 100 * c + 4 * q + r
  {
    var n := 36524 * c + 1461 * q + 365 * r + day;
    var over := 24 * c + q + 365 * r + day;
    assert n == 1460 * (25 * c + q) + over && 0 <= over < 2920;
    assert n / 1460 == 25 * c + q + (if over >= 1460 then 1 else 0);
    assert n / 146096 == if n == 146096 then 1 else 0;
    if n == 146096 {
      assert n / 36524 == 4;
    } else {
      assert n / 36524 == c;
    }
  }

  /** The closed form finds the year of any day of an era. */
  lemma YearOfEraInverts(year: int, day: int)
    requires 0 <= year < 400 && 0 <= day < LengthOfShifted(year)
    ensures YearOfEra(DaysBeforeYear(year) + day) == year
    ensures 0 <= DaysBeforeYear(year) + day < 146097
  {
    var (c, q, r) := (year / 100, (year % 100) / 4, year % 4);
    assert year == 100 * c + 4 * q + r;
    DaysBeforeYearSplit(year, c, q, r);
    YearOfEraSplit(c, q, r, day);
  }

  lemma EraOf(era: int, dayOfEra: int)
    requires 0 <= dayOfEra < 146097
    ensures (era * 146097 + dayOfEra) / 146097 == era
  {
  }

  lemma CivilOfShifted(s: Shifted)
    requires IsShifted(s)
    ensures CivilDate(DaysOfShifted(s)) == DateOfShifted(s)
  {
    hide YearOfEra;
    YearOfEraInverts(s.year, s.day);
    EraOf(s.era, DaysBeforeYear(s.year) + s.day);
  }

  /** Every day number is the day of some year of some era. */
  lemma {:induction false} ShiftedExists(days: int) returns (s: Shifted)
    ensures IsShifted(s) && DaysOfShifted(s) == days
  {
    var n := days + 719468;
    var (era, doe) := (n / 146097, n % 146097);
    var year := FindYear(doe, 0);
    s := Shifted(era, year, doe - DaysBeforeYear(year));
  }

  lemma YearsAdjoin(year: int)
    requires 0 <= year < 399
    ensures DaysBeforeYear(year + 1) == DaysBeforeYear(year) + LengthOfShifted(year)
  {
    var (c, q, r) := (year / 100, (year % 100) / 4, year % 4);
    DaysBeforeYearSplit(year, c, q, r);
    if r < 3 {
      DaysBeforeYearSplit(year + 1, c, q, r + 1);
    } else if q < 24 {
      DaysBeforeYearSplit(year + 1, c, q + 1, 0);
    } else {
      DaysBeforeYearSplit(year + 1, c + 1, 0, 0);
    }
  }

  lemma {:induction false} FindYear(dayOfEra: int, from: int) returns (year: int)
    requires 0 <= from < 400 && DaysBeforeYear(from) <= dayOfEra < 146097
    ensures 0 <= year < 400 && 0 <= dayOfEra - DaysBeforeYear(year) < LengthOfShifted(year)
    decreases 400 - from
  {
    if dayOfEra - DaysBeforeYear(from) < LengthOfShifted(from) {
      year := from;
    } else {
      if from == 399 { DaysBeforeYearSplit(399, 3, 24, 3); }
      YearsAdjoin(from);
      year := FindYear(dayOfEra, from + 1);
    }
  }

  // ----- months -----

  function LengthOfMonthPrime(monthPrime: int, yearLength: int): int {
    if monthPrime == 11 then yearLength - 337
    else if monthPrime == 1 || monthPrime == 3 || monthPrime == 6 || monthPrime == 8 then 30
    else 31
  }

  /** The months of a year from March: where each starts, and that the closed form finds the month of any day. */
  lemma MonthsFromMarch(monthPrime: int, day: int, yearLength: int)
    requires 0 <= monthPrime < 12 && yearLength in {365, 366} && 0 <= day < LengthOfMonthPrime(monthPrime, yearLength)
    ensures FirstOfMonth(0) == 0
    ensures FirstOfMonth(monthPrime) + LengthOfMonthPrime(monthPrime, yearLength)
         == if monthPrime == 11 then yearLength else FirstOfMonth(monthPrime + 1)
    ensures (5 * (FirstOfMonth(monthPrime) + day) + 2) / 153 == monthPrime
    ensures 0 <= FirstOfMonth(monthPrime) + day < yearLength
  {
  }

  lemma MonthOfDay(day: int, yearLength: int)
    requires yearLength in {365, 366} && 0 <= day < yearLength
    ensures var monthPrime := (5 * day + 2) / 153;
            0 <= monthPrime < 12 && 0 <= day - FirstOfMonth(monthPrime) < LengthOfMonthPrime(monthPrime, yearLength)
  {
    var monthPrime := (5 * day + 2) / 153;
    assert 0 <= monthPrime < 12;
    assert 153 * monthPrime <= 5 * day + 2 < 153 * monthPrime + 153;
  }

  lemma RestOf(k: int, e: int, rest: int, n: int)
    requires k > 0 && n == 400 * e + rest && 400 % k == 0
    ensures n % k == rest % k
  {
    var t := 400 / k;
    assert 400 * e == k * (t * e);
    var (q, r) := (rest / k, rest % k);
    assert n == k * (t * e + q) + r;
    QuotientUnique(n, k, t * e + q, r);
  }

  lemma QuotientUnique(n: int, k: int, q: int, r: int)
    requires k > 0 && n == k * q + r && 0 <= r < k
    ensures n % k == r && n / k == q
  {
    var d := n / k - q;
    assert k * d == r - n % k;
    assert d >= 1 ==> k * d >= k;
    assert d <= -1 ==> k * d <= -k;
  }

  /** Leap years end the shifted year before them. */
  lemma LeapIsLong(year: int)
    ensures LengthOfShifted((year - 1) % 400) == if IsLeap(year) then 366 else 365
  {
    var (m, e) := ((year - 1) % 400, (year - 1) / 400);
    RestOf(4, e, m + 1, year);
    RestOf(100, e, m + 1, year);
    RestOf(400, e, m + 1, year);
    if m == 399 {
      assert (m + 1) % 400 == 0;
    } else {
      QuotientUnique(m + 1, 400, 0, m + 1);
    }
  }

  lemma MonthLengths(year: int, month: int)
    requires 1 <= month <= 12
    ensures var shifted := if month <= 2 then year - 1 else year;
            DaysInMonth(year, month) == LengthOfMonthPrime(MonthPrime(month), LengthOfShifted(shifted % 400))
  {
    LeapIsLong(year);
  }

  // ----- the two are inverse -----

  lemma ShiftedOfDate(d: Date)
    requires IsDate(d)
    ensures IsShifted(ShiftedOf(d)) && DateOfShifted(ShiftedOf(d)) == d
  {
    var year := if d.month <= 2 then d.year - 1 else d.year;
    MonthLengths(d.year, d.month);
    MonthsFromMarch(MonthPrime(d.month), d.day - 1, LengthOfShifted(year % 400));
    assert year == 400 * (year / 400) + year % 400;
  }

  lemma DateOfShiftedIsDate(s: Shifted)
    requires IsShifted(s)
    ensures IsDate(DateOfShifted(s)) && ShiftedOf(DateOfShifted(s)) == s
  {
    var d := DateOfShifted(s);
    MonthOfDay(s.day, LengthOfShifted(s.year));
    var year := s.year + s.era * 400;
    assert year % 400 == s.year && year / 400 == s.era;
    MonthLengths(d.year, d.month);
  }

  /** The closed form is the calendar's date: every date comes from its day number, and no other date does. */
  lemma CivilInvertsDays(d: Date)
    requires IsDate(d)
    ensures CivilDate(DaysOf(d)) == d
  {
    ShiftedOfDate(d);
    CivilOfShifted(ShiftedOf(d));
  }

  /** For every day number, before or after the epoch, month and day are valid and lead back to it. */
  lemma DaysInvertCivil(days: int)
    ensures IsDate(CivilDate(days)) && DaysOf(CivilDate(days)) == days
  {
    var s := ShiftedExists(days);
    CivilOfShifted(s);
    DateOfShiftedIsDate(s);
  }

  // ----- day by day -----

  lemma TomorrowIsDate(d: Date)
    requires IsDate(d)
    ensures IsDate(Tomorrow(d)) && Before(d, Tomorrow(d))
  {
  }

  /** The first day of a month follows the last day of the month before. */
  lemma MonthsAdjoin(year: int, month: int)
    requires 1 <= month <= 11
    ensures DaysOf(Date(year, month + 1, 1)) == DaysOf(Date(year, month, DaysInMonth(year, month))) + 1
  {
    var shifted := if month <= 2 then year - 1 else year;
    MonthLengths(year, month);
    MonthsFromMarch(MonthPrime(month), 0, LengthOfShifted(shifted % 400));
    if month == 2 {
      ShiftedYearsAdjoin(year - 1);
    }
  }

  lemma ShiftedYearsAdjoin(year: int)
    ensures DaysOfShifted(Shifted((year + 1) / 400, (year + 1) % 400, 0))
         == DaysOfShifted(Shifted(year / 400, year % 400, LengthOfShifted(year % 400) - 1)) + 1
  {
    var (e, m) := (year / 400, year % 400);
    assert year == 400 * e + m;
    if m < 399 {
      assert (year + 1) / 400 == e && (year + 1) % 400 == m + 1;
      YearsAdjoin(m);
    } else {
      assert (year + 1) / 400 == e + 1 && (year + 1) % 400 == 0;
      DaysBeforeYearSplit(399, 3, 24, 3);
    }
  }

  lemma TomorrowIsNext(d: Date)
    requires IsDate(d)
    ensures IsDate(Tomorrow(d)) && DaysOf(Tomorrow(d)) == DaysOf(d) + 1
  {
    TomorrowIsDate(d);
    if d.day == DaysInMonth(d.year, d.month) && d.month < 12 {
      MonthsAdjoin(d.year, d.month);
    }
  }

  lemma EpochIsNewYear()
    ensures CivilDate(0) == Date(1970, 1, 1)
  {
  }

  /** Day zero is the first of January 1970, and each further day is the next day of the Gregorian calendar. */
  lemma ClosedFormIsTheCalendar(days: int)
    ensures CivilDate(0) == Date(1970, 1, 1)
    ensures IsDate(CivilDate(days)) && CivilDate(days + 1) == Tomorrow(CivilDate(days))
  {
    EpochIsNewYear();
    hide CivilDate, DaysOf, Tomorrow, IsDate;
    DaysInvertCivil(days);
    TomorrowIsNext(CivilDate(days));
    CivilInvertsDays(Tomorrow(CivilDate(days)));
  }

  lemma BeforeTransitive(a: Date, b: Date, c: Date)
    requires Before(a, b) && Before(b, c)
    ensures Before(a, c)
  {
  }

  lemma {:induction false} DatesAscendBy(from: int, more: nat)
    ensures Before(CivilDate(from), CivilDate(from + 1 + more))
    decreases more
  {
    hide CivilDate, Tomorrow, IsDate, Before;
    var last := from + more;
    ClosedFormIsTheCalendar(last);
    TomorrowIsDate(CivilDate(last));
    if more > 0 {
      DatesAscendBy(from, more - 1);
      BeforeTransitive(CivilDate(from), CivilDate(last), CivilDate(last + 1));
    }
  }

  /** Later days have later dates, so no date is met twice. */
  lemma DatesAscend(from: int, to: int)
    requires from < to
    ensures Before(CivilDate(from), CivilDate(to))
  {
    hide CivilDate, Before;
    DatesAscendBy(from, to - from - 1);
  }

  // ----- the timestamp -----

  datatype Stamp = Stamp(date: Date, hour: int, minute: int, second: int)

  function StampOf(seconds: int): Stamp {
    var (days, ofDay) := (seconds / 86400, seconds % 86400);
    Stamp(CivilDate(days), ofDay / 3600, ofDay % 3600 / 60, ofDay % 60)
  }

  lemma TimeOfDay(ofDay: int)
    requires 0 <= ofDay < 86400
    ensures 0 <= ofDay / 3600 < 24 && 0 <= ofDay % 3600 / 60 < 60 && 0 <= ofDay % 60 < 60
    ensures ofDay == ofDay / 3600 * 3600 + ofDay % 3600 / 60 * 60 + ofDay % 60
  {
    var (h, rest) := (ofDay / 3600, ofDay % 3600);
    var (m, s) := (rest / 60, rest % 60);
    assert ofDay == 60 * (60 * h + m) + s;
    QuotientUnique(ofDay, 60, 60 * h + m, s);
  }

  /** A stamp names a time of day of a calendar date, and the instant can be read back from it. */
  lemma StampNamesTheInstant(seconds: int)
    ensures var s := StampOf(seconds);
            && IsDate(s.date) && 0 <= s.hour < 24 && 0 <= s.minute < 60 && 0 <= s.second < 60
            && seconds == DaysOf(s.date) * 86400 + s.hour * 3600 + s.minute * 60 + s.second
  {
    hide CivilDate, DaysOf, IsDate;
    DaysInvertCivil(seconds / 86400);
    TimeOfDay(seconds % 86400);
  }
}
