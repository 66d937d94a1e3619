/** Instants and the proleptic Gregorian calendar.

    A `DateTime<Utc>` is modelled as the number of nanoseconds since
    0000-01-01T00:00:00Z.  Leap seconds are not represented. */
module Calendar {

  const SECOND: nat := 1_000_000_000
  const MINUTE: nat := 60 * SECOND
  const HOUR: nat := 60 * MINUTE
  const DAY: nat := 24 * HOUR

  type Time = nat

  function Seconds(t: Time): nat { t / SECOND }
  function Nanos(t: Time): nat { t % SECOND }
  function HourOf(t: Time): nat { t / HOUR }

  /** The start of the microsecond. */
  function WholeMicros(t: int): (r: int)
    ensures r <= t < r + 1_000 && r % 1_000 == 0
  {
    t / 1_000 * 1_000
  }

  lemma MicrosGrow(t: int, u: int)
    requires t <= u
    ensures WholeMicros(t) <= WholeMicros(u)
  {
    assert t / 1_000 <= u / 1_000;
  }

  predicate Leap(y: nat) { y % 4 == 0 && (y % 100 != 0 || y % 400 == 0) }

  function DaysInMonth(y: nat, m: nat): (d: nat)
    ensures 28 <= d <= 31
  {
    if m == 2 then (if Leap(y) then 29 else 28)
    else if m == 4 || m == 6 || m == 9 || m == 11 then 30
    else 31
  }

  function DaysBeforeMonth(y: nat, m: nat): nat {
    if m <= 1 then 0 else DaysBeforeMonth(y, m - 1) + DaysInMonth(y, m - 1)
  }

  function YearLength(y: nat): nat { DaysBeforeMonth(y, 13) }

  function DaysBeforeYear(y: nat): nat {
    if y == 0 then 0 else DaysBeforeYear(y - 1) + YearLength(y - 1)
  }

  datatype Date = Date(year: nat, month: nat, day: nat)

  predicate ValidDate(d: Date) {
    1 <= d.month <= 12 && 1 <= d.day <= DaysInMonth(d.year, d.month)
  }

  predicate DateLess(a: Date, b: Date) {
    || a.year < b.year
    || (a.year == b.year && (a.month < b.month || (a.month == b.month && a.day < b.day)))
  }

  function DayNumber(d: Date): nat
    requires d.day >= 1
  {
    DaysBeforeYear(d.year) + DaysBeforeMonth(d.year, d.month) + d.day - 1
  }

  /** The date `day` days after the first of month `m` of year `y`. */
  function DateInYear(y: nat, m: nat, day: nat): Date
    decreases 12 - m
  {
    if m >= 12 || day < DaysInMonth(y, m) then Date(y, m, day + 1)
    else DateInYear(y, m + 1, day - DaysInMonth(y, m))
  }

  /** The date `day` days after 1 January of year `y`. */
  function DateFrom(y: nat, day: nat): Date
    decreases day
  {
    YearIsLong(y);
    if day < YearLength(y) then DateInYear(y, 1, day) else DateFrom(y + 1, day - YearLength(y))
  }

  function DateOf(t: Time): Date { DateFrom(0, t / DAY) }

  /** Division is determined by its quotient and remainder. */
  lemma QuotientIs(n: nat, d: nat, q: nat, r: nat)
    requires r < d && n == q * d + r
    ensures n / d == q && n % d == r
  {
    var q', r' := n / d, n % d;
    assert n == q' * d + r';
    MixedRadix(d, q, q', r, r');
    MixedRadix(d, q', q, r', r);
  }

  // ----- the calendar is a bijection that keeps the order of days

  lemma YearIsLong(y: nat)
    ensures YearLength(y) > 0
  {
    assert DaysInMonth(y, 12) > 0;
  }

  lemma {:induction false} MonthsAddUp(y: nat, m: nat, n: nat)
    requires 1 <= m < n
    ensures DaysBeforeMonth(y, m) + DaysInMonth(y, m) <= DaysBeforeMonth(y, n)
  {
    if m < n - 1 { MonthsAddUp(y, m, n - 1); }
  }

  lemma {:induction false} YearsAddUp(y: nat, z: nat)
    requires y < z
    ensures DaysBeforeYear(y) + YearLength(y) <= DaysBeforeYear(z)
  {
    if y < z - 1 { YearsAddUp(y, z - 1); }
  }

  lemma {:induction false} DateInYearCorrect(y: nat, m: nat, day: nat)
    requires 1 <= m <= 12 && DaysBeforeMonth(y, m) + day < YearLength(y)
    ensures var d := DateInYear(y, m, day);
            ValidDate(d) && d.year == y && DaysBeforeMonth(y, d.month) + d.day - 1 == DaysBeforeMonth(y, m) + day
    decreases 12 - m
  {
    if day >= DaysInMonth(y, m) && m < 12 { DateInYearCorrect(y, m + 1, day - DaysInMonth(y, m)); }
  }

  lemma {:induction false} DateFromCorrect(y: nat, day: nat)
    ensures ValidDate(DateFrom(y, day))
    ensures DayNumber(DateFrom(y, day)) == DaysBeforeYear(y) + day
    decreases day
  {
    YearIsLong(y);
    if day < YearLength(y) { DateInYearCorrect(y, 1, day); } else { DateFromCorrect(y + 1, day - YearLength(y)); }
  }

  /** Printing a day as a date loses nothing. */
  lemma DateOfCorrect(t: Time)
    ensures ValidDate(DateOf(t)) && DayNumber(DateOf(t)) == t / DAY
  {
    DateFromCorrect(0, t / DAY);
  }

  lemma {:induction false} DayInYear(d: Date)
    requires ValidDate(d)
    ensures DaysBeforeYear(d.year) <= DayNumber(d) < DaysBeforeYear(d.year + 1)
  {
    MonthsAddUp(d.year, d.month, 13);
  }

  /** Comparing dates field by field is comparing days. */
  lemma DateOrder(a: Date, b: Date)
    requires ValidDate(a) && ValidDate(b)
    ensures DateLess(a, b) <==> DayNumber(a) < DayNumber(b)
    ensures a == b <==> DayNumber(a) == DayNumber(b)
  {
    if DateLess(a, b) { EarlierDate(a, b); } else if DateLess(b, a) { EarlierDate(b, a); }
  }

  lemma EarlierDate(a: Date, b: Date)
    requires ValidDate(a) && ValidDate(b) && DateLess(a, b)
    ensures DayNumber(a) < DayNumber(b)
  {
    if a.year < b.year {
      DayInYear(a);
      DayInYear(b);
      if a.year + 1 < b.year { YearsAddUp(a.year + 1, b.year); }
    } else if a.month < b.month {
      MonthsAddUp(a.year, a.month, b.month);
    }
  }

  /** The months as everybody knows them. */
  lemma MonthLengths(y: nat)
    ensures DaysInMonth(y, 1) == 31 && DaysInMonth(y, 3) == 31 && DaysInMonth(y, 4) == 30 && DaysInMonth(y, 5) == 31
    ensures DaysInMonth(y, 6) == 30 && DaysInMonth(y, 7) == 31 && DaysInMonth(y, 8) == 31 && DaysInMonth(y, 9) == 30
    ensures DaysInMonth(y, 10) == 31 && DaysInMonth(y, 11) == 30 && DaysInMonth(y, 12) == 31
    ensures DaysInMonth(y, 2) == if y % 400 == 0 || (y % 4 == 0 && y % 100 != 0) then 29 else 28
  {
  }

  /** Day zero is 1 January of the year 0, and each day is followed by the next one of its month, by the
      first of the next month, or by new year. */
  lemma NextDay(t: Time)
    ensures DateOf(0) == Date(0, 1, 1)
    ensures var d := DateOf(t);
            DateOf(t + DAY) == if d.day < DaysInMonth(d.year, d.month) then Date(d.year, d.month, d.day + 1)
                               else if d.month < 12 then Date(d.year, d.month + 1, 1)
                               else Date(d.year + 1, 1, 1)
  {
    FirstDay();
    TomorrowComes(t);
  }

  lemma FirstDay()
    ensures DateOf(0) == Date(0, 1, 1)
  {
  }

  lemma TomorrowComes(t: Time)
    ensures DateOf(t + DAY) == Tomorrow(DateOf(t))
  {
    DateOfCorrect(t);
    DayAfter(DateOf(t));
    OneDayOn(t);
    DateIs(t + DAY, Tomorrow(DateOf(t)));
  }

  lemma OneDayOn(t: Time)
    ensures (t + DAY) / DAY == t / DAY + 1
  {
  }

  lemma DateIs(t: Time, d: Date)
    requires ValidDate(d) && DayNumber(d) == t / DAY
    ensures DateOf(t) == d
  {
    DateOfCorrect(t);
    DateOrder(DateOf(t), d);
  }

  function Tomorrow(d: Date): Date {
    if d.day < DaysInMonth(d.year, d.month) then Date(d.year, d.month, d.day + 1)
    else if d.month < 12 then Date(d.year, d.month + 1, 1)
    else Date(d.year + 1, 1, 1)
  }

  lemma DayAfter(d: Date)
    requires ValidDate(d)
    ensures ValidDate(Tomorrow(d)) && DayNumber(Tomorrow(d)) == DayNumber(d) + 1
  {
    if d.day == DaysInMonth(d.year, d.month) && d.month == 12 {
      assert YearLength(d.year) == DaysBeforeMonth(d.year, 12) + DaysInMonth(d.year, 12);
    }
  }

  /** The broken-down clock reading of an instant. */
  datatype Civil = Civil(date: Date, hour: nat, minute: nat, second: nat, nano: nat)

  function CivilOf(t: Time): Civil {
    var inDay := t % DAY;
    var inHour := inDay % HOUR;
    var inMinute := inHour % MINUTE;
    Civil(DateOf(t), inDay / HOUR, inHour / MINUTE, inMinute / SECOND, inMinute % SECOND)
  }

  predicate ValidCivil(c: Civil) {
    ValidDate(c.date) && c.hour < 24 && c.minute < 60 && c.second < 60 && c.nano < SECOND
  }

  function TimeOf(c: Civil): Time
    requires c.date.day >= 1
  {
    DayNumber(c.date) * DAY + InDay(c)
  }

  function InDay(c: Civil): nat {
    c.hour * HOUR + c.minute * MINUTE + c.second * SECOND + c.nano
  }

  lemma ClockReading(t: Time)
    ensures var c := CivilOf(t); c.hour < 24 && c.minute < 60 && c.second < 60 && c.nano < SECOND
    ensures InDay(CivilOf(t)) == t % DAY
  {
    DivideDay(t % DAY);
  }

  /** Breaking an instant down and putting it together again is the identity. */
  lemma CivilRoundTrip(t: Time)
    ensures ValidCivil(CivilOf(t)) && TimeOf(CivilOf(t)) == t
    ensures InDay(CivilOf(t)) == t % DAY
  {
    DateOfCorrect(t);
    ClockReading(t);
    assert TimeOf(CivilOf(t)) == t / DAY * DAY + t % DAY;
  }

  /** Every reading of a clock is the reading of its instant. */
  lemma TimeRoundTrip(c: Civil)
    requires ValidCivil(c)
    ensures CivilOf(TimeOf(c)) == c
  {
    var t := TimeOf(c);
    var d := CivilOf(t);
    CivilRoundTrip(t);
    DateOfCorrect(t);
    InDayBounded(c);
    QuotientIs(t, DAY, DayNumber(c.date), InDay(c));
    DateOrder(c.date, d.date);
    TimeOfDayOrder(c, d);
    TimeOfDayOrder(d, c);
  }

  lemma InDayBounded(c: Civil)
    requires ValidCivil(c)
    ensures InDay(c) < DAY
  {
  }

  lemma DivideDay(r: nat)
    requires r < DAY
    ensures r / HOUR < 24 && r % HOUR / MINUTE < 60 && r % HOUR % MINUTE / SECOND < 60
    ensures r / HOUR * HOUR + r % HOUR / MINUTE * MINUTE + r % HOUR % MINUTE / SECOND * SECOND
            + r % HOUR % MINUTE % SECOND == r
  {
  }

  predicate TimeOfDayLess(a: Civil, b: Civil) {
    || a.hour < b.hour
    || (a.hour == b.hour && (a.minute < b.minute || (a.minute == b.minute &&
       (a.second < b.second || (a.second == b.second && a.nano < b.nano)))))
  }

  lemma MixedRadix(unit: nat, a: nat, b: nat, x: nat, y: nat)
    requires x < unit && y < unit
    ensures a * unit + x < b * unit + y <==> a < b || (a == b && x < y)
  {
    if a < b { assert a * unit + unit <= b * unit by { assert (a + 1) * unit <= b * unit; } }
    if b < a { assert b * unit + unit <= a * unit by { assert (b + 1) * unit <= a * unit; } }
  }

  lemma TimeOfDayOrder(a: Civil, b: Civil)
    requires ValidCivil(a) && ValidCivil(b)
    ensures TimeOfDayLess(a, b) <==> InDay(a) < InDay(b)
  {
    var u, v := a.second * SECOND + a.nano, b.second * SECOND + b.nano;
    var x, y := a.minute * MINUTE + u, b.minute * MINUTE + v;
    MixedRadix(SECOND, a.second, b.second, a.nano, b.nano);
    MixedRadix(MINUTE, a.minute, b.minute, u, v);
    MixedRadix(HOUR, a.hour, b.hour, x, y);
  }

  lemma DayOrder(t: Time, u: Time)
    ensures t < u <==> t / DAY < u / DAY || (t / DAY == u / DAY && t % DAY < u % DAY)
  {
  }

  /** Comparing broken-down readings field by field is comparing instants. */
  lemma CivilOrder(t: Time, u: Time)
    ensures t < u <==> var a, b := CivilOf(t), CivilOf(u);
                       DateLess(a.date, b.date) || (a.date == b.date && TimeOfDayLess(a, b))
  {
    var a, b := CivilOf(t), CivilOf(u);
    CivilRoundTrip(t);
    CivilRoundTrip(u);
    DateOfCorrect(t);
    DateOfCorrect(u);
    DateOrder(a.date, b.date);
    TimeOfDayOrder(a, b);
    DayOrder(t, u);
  }
}
