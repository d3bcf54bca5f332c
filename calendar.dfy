/**
 * The date-time value of the picker: a proleptic Gregorian calendar point
 * with a 0-based month, and the add/set arithmetic the panel engine needs
 * (the part a date library supplies to the component).
 */
module Calendar {

  datatype DateTime = DateTime(year: int, month: int, day: int, hour: int, minute: int, second: int)

  predicate IsLeapYear(y: int) {
    y % 4 == 0 && (y % 100 != 0 || y % 400 == 0)
  }

  /** Length of month `m` (0 = January) of year `y`. */
  function DaysInMonth(y: int, m: int): (n: int)
    requires 0 <= m < 12
    ensures 28 <= n <= 31
  {
    if m == 1 then (if IsLeapYear(y) then 29 else 28)
    else if m == 3 || m == 5 || m == 8 || m == 10 then 30
    else 31
  }

  predicate ValidClock(hour: int, minute: int, second: int) {
    0 <= hour < 24 && 0 <= minute < 60 && 0 <= second < 60
  }

  /** A syntactically valid calendar point. */
  predicate Valid(d: DateTime) {
    && 0 <= d.month < 12
    && 1 <= d.day <= DaysInMonth(d.year, d.month)
    && ValidClock(d.hour, d.minute, d.second)
  }

  predicate SameDate(a: DateTime, b: DateTime) {
    a.year == b.year && a.month == b.month && a.day == b.day
  }

  predicate SameClock(a: DateTime, b: DateTime) {
    a.hour == b.hour && a.minute == b.minute && a.second == b.second
  }

  function Min(a: int, b: int): int {
    if a <= b then a else b
  }

  function Max(a: int, b: int): int {
    if a <= b then b else a
  }

  /** Months counted from January of year 0: the quantity month steps move. */
  function MonthIndex(d: DateTime): int {
    d.year * 12 + d.month
  }

  /** Year and month are determined by the month index. */
  lemma MonthIndexDetermines(a: DateTime, b: DateTime)
    requires 0 <= a.month < 12 && 0 <= b.month < 12
    requires MonthIndex(a) == MonthIndex(b)
    ensures a.year == b.year && a.month == b.month
  {
  }

  /** Move by `n` months; the day of month is clamped to the target month's length. */
  function AddMonths(d: DateTime, n: int): (r: DateTime)
    requires Valid(d)
    ensures Valid(r) && SameClock(r, d)
    ensures MonthIndex(r) == MonthIndex(d) + n
    ensures r.day == Min(d.day, DaysInMonth(r.year, r.month))
  {
    var i := MonthIndex(d) + n;
    var y, m := i / 12, i % 12;
    d.(year := y, month := m, day := Min(d.day, DaysInMonth(y, m)))
  }

  /** Set the year; 29 February becomes 28 February in a common year. */
  function SetYear(d: DateTime, y: int): (r: DateTime)
    requires Valid(d)
    ensures Valid(r) && SameClock(r, d)
    ensures r.year == y && r.month == d.month
    ensures r.day == Min(d.day, DaysInMonth(y, d.month))
  {
    d.(year := y, day := Min(d.day, DaysInMonth(y, d.month)))
  }

  /** Move by `n` years, keeping the month. */
  function AddYears(d: DateTime, n: int): (r: DateTime)
    requires Valid(d)
    ensures Valid(r) && SameClock(r, d)
    ensures r.year == d.year + n && r.month == d.month
    ensures r.day == Min(d.day, DaysInMonth(r.year, r.month))
  {
    SetYear(d, d.year + n)
  }

  /** Set the month; the day is clamped to the new month's length. */
  function SetMonth(d: DateTime, m: int): (r: DateTime)
    requires Valid(d) && 0 <= m < 12
    ensures Valid(r) && SameClock(r, d)
    ensures r.year == d.year && r.month == m
    ensures r.day == Min(d.day, DaysInMonth(d.year, m))
  {
    d.(month := m, day := Min(d.day, DaysInMonth(d.year, m)))
  }

  /** Replace the time of day, keeping the date. */
  function SetClock(d: DateTime, hour: int, minute: int, second: int): (r: DateTime)
    requires Valid(d) && ValidClock(hour, minute, second)
    ensures Valid(r) && SameDate(r, d)
    ensures r.hour == hour && r.minute == minute && r.second == second
  {
    d.(hour := hour, minute := minute, second := second)
  }

  /** The same date at 00:00:00. */
  function StartOfDay(d: DateTime): (r: DateTime)
    ensures SameDate(r, d) && r.hour == 0 && r.minute == 0 && r.second == 0
  {
    d.(hour := 0, minute := 0, second := 0)
  }

  /** A year step is a step of twelve months. */
  lemma AddYearsIsTwelveMonths(d: DateTime, n: int)
    requires Valid(d)
    ensures AddYears(d, n) == AddMonths(d, 12 * n)
  {
    var a, b := AddYears(d, n), AddMonths(d, 12 * n);
    assert MonthIndex(a) == MonthIndex(d) + 12 * n;
    MonthIndexDetermines(a, b);
  }

  /**
   * Stepping `n` months and back returns to the start exactly when the day
   * of month survives the clamp in the intermediate month.
   */
  lemma AddMonthsRoundTrip(d: DateTime, n: int)
    requires Valid(d)
    ensures AddMonths(AddMonths(d, n), -n) == d
        <==> d.day <= DaysInMonth(AddMonths(d, n).year, AddMonths(d, n).month)
  {
    var r := AddMonths(d, n);
    var back := AddMonths(r, -n);
    MonthIndexDetermines(back, d);
    if d.day > DaysInMonth(r.year, r.month) {
      assert back.day <= r.day < d.day;
    }
  }

  /** The same, for year steps: only 29 February into a common year fails. */
  lemma AddYearsRoundTrip(d: DateTime, n: int)
    requires Valid(d)
    ensures AddYears(AddYears(d, n), -n) == d
        <==> !(d.month == 1 && d.day == 29 && !IsLeapYear(d.year + n))
  {
  }
}
