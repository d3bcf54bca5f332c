/**
 * Header navigation: the page steps of prev / next / super-prev / super-next
 * for each view, and the header label of the page an anchor is on.
 */
module Navigation {
  import opened Wrappers
  import opened Calendar
  import opened Views

  datatype Direction = Prev | Next | SuperPrev | SuperNext

  function Opposite(dir: Direction): Direction {
    match dir
    case Prev => Next
    case Next => Prev
    case SuperPrev => SuperNext
    case SuperNext => SuperPrev
  }

  /** A page step: a number of months or a number of years. */
  datatype Step = Months(months: int) | Years(years: int)

  function Negate(step: Step): Step {
    match step
    case Months(n) => Months(-n)
    case Years(n) => Years(-n)
  }

  /**
   * The step a header button makes in a view; None when the header has no
   * such button (only the date and week headers have plain prev/next).
   */
  function PageStep(view: View, dir: Direction): (r: Option<Step>)
    ensures r.Some? <==> view == Date || view == Week || (view != Time && (dir == SuperPrev || dir == SuperNext))
    ensures r.Some? ==> (r.value.Months? <==> dir == Prev || dir == Next)
    ensures r.Some? ==> var n := if r.value.Months? then r.value.months else r.value.years;
              n != 0 && (n < 0 <==> dir == Prev || dir == SuperPrev)
  {
    var sign := if dir == Prev || dir == SuperPrev then -1 else 1;
    var super := dir == SuperPrev || dir == SuperNext;
    match view
    case Date => Some(if super then Years(sign) else Months(sign))
    case Week => Some(if super then Years(sign) else Months(sign))
    case Month => if super then Some(Years(sign)) else None
    case Quarter => if super then Some(Years(sign)) else None
    case Year => if super then Some(Years(10 * sign)) else None
    case Decade => if super then Some(Years(100 * sign)) else None
    case Time => None
  }

  function ApplyStep(a: DateTime, step: Step): (r: DateTime)
    requires Valid(a)
    ensures Valid(r) && SameClock(r, a)
  {
    match step
    case Months(n) => AddMonths(a, n)
    case Years(n) => AddYears(a, n)
  }

  /** The new anchor after a header button; None when the view has no such button. */
  function Navigate(view: View, dir: Direction, anchor: DateTime): (r: Option<DateTime>)
    requires Valid(anchor)
    ensures r.Some? <==> PageStep(view, dir).Some?
    ensures r.Some? ==> Valid(r.value) && SameClock(r.value, anchor)
  {
    match PageStep(view, dir)
    case Some(step) => Some(ApplyStep(anchor, step))
    case None => None
  }

  /** First year of the ten-year page holding `y` (floor to a multiple of ten). */
  function DecadeStart(y: int): (s: int)
    ensures s % 10 == 0 && s <= y < s + 10
  {
    y - y % 10
  }

  /** First year of the hundred-year page holding `y`. */
  function CenturyStart(y: int): (s: int)
    ensures s % 100 == 0 && s <= y < s + 100
  {
    y - y % 100
  }

  /** A header label: month name and year, a single year, or a year span. */
  datatype Label = MonthYear(month: int, year: int) | YearOnly(year: int) | Span(first: int, last: int)

  /** The header label of the page `anchor` is on; the time view has none. */
  function HeaderLabel(view: View, anchor: DateTime): (r: Option<Label>)
    ensures r.None? <==> view == Time
    ensures r.Some? && r.value.Span? ==> r.value.first <= anchor.year <= r.value.last
    ensures r.Some? && !r.value.Span? ==> r.value.year == anchor.year
    ensures r.Some? && r.value.MonthYear? ==> r.value.month == anchor.month && (view == Date || view == Week)
  {
    match view
    case Date => Some(MonthYear(anchor.month, anchor.year))
    case Week => Some(MonthYear(anchor.month, anchor.year))
    case Month => Some(YearOnly(anchor.year))
    case Quarter => Some(YearOnly(anchor.year))
    case Year => Some(Span(DecadeStart(anchor.year), DecadeStart(anchor.year) + 9))
    case Decade => Some(Span(CenturyStart(anchor.year), CenturyStart(anchor.year) + 99))
    case Time => None
  }

  function ShortMonthName(m: int): string
    requires 0 <= m < 12
  {
    ["Jan", "Feb", "Mar", "Apr", "May", "Jun", "Jul", "Aug", "Sep", "Oct", "Nov", "Dec"][m]
  }

  function DigitChar(k: int): char
    requires 0 <= k < 10
  {
    (48 + k) as char
  }

  function NatText(n: nat): (s: string)
    ensures |s| >= 1
  {
    if n < 10 then [DigitChar(n)] else NatText(n / 10) + [DigitChar(n % 10)]
  }

  function YearText(y: int): string {
    if y < 0 then "-" + NatText(-y) else NatText(y)
  }

  /** A four-digit year is written with exactly its four digits. */
  lemma FourDigitYear(y: int)
    requires 1000 <= y < 10000
    ensures YearText(y) == [DigitChar(y / 1000), DigitChar(y / 100 % 10), DigitChar(y / 10 % 10), DigitChar(y % 10)]
  {
    var a, b, c := y / 10, y / 100, y / 1000;
    assert a / 10 == b && b / 10 == c && 1 <= c < 10;
    assert NatText(b) == NatText(c) + [DigitChar(b % 10)];
    assert NatText(a) == NatText(b) + [DigitChar(a % 10)];
    assert a % 10 == y / 10 % 10 && b % 10 == y / 100 % 10;
  }

  /** The header text, in the en_US short month format ("Aug1990", "1980-1989"). */
  function LabelText(l: Label): string
    requires l.MonthYear? ==> 0 <= l.month < 12
  {
    match l
    case MonthYear(m, y) => ShortMonthName(m) + YearText(y)
    case YearOnly(y) => YearText(y)
    case Span(a, b) => YearText(a) + "-" + YearText(b)
  }

  /** Every button has its opposite, and the two steps cancel. */
  lemma OppositeStepCancels(view: View, dir: Direction)
    ensures PageStep(view, Opposite(dir)).Some? <==> PageStep(view, dir).Some?
    ensures PageStep(view, dir).Some? ==> PageStep(view, Opposite(dir)).value == Negate(PageStep(view, dir).value)
  {
  }

  /**
   * A button followed by its opposite returns to the anchor exactly when
   * the anchor's day of month exists on the intermediate page.
   */
  lemma NavigateRoundTrip(view: View, dir: Direction, a: DateTime)
    requires Valid(a) && PageStep(view, dir).Some?
    ensures Navigate(view, Opposite(dir), Navigate(view, dir, a).value).Some?
    ensures Navigate(view, Opposite(dir), Navigate(view, dir, a).value).value == a
        <==> a.day <= DaysInMonth(Navigate(view, dir, a).value.year, Navigate(view, dir, a).value.month)
  {
    OppositeStepCancels(view, dir);
    match PageStep(view, dir).value
    case Months(n) =>
      assert PageStep(view, Opposite(dir)) == Some(Months(-n));
      AddMonthsRoundTrip(a, n);
    case Years(n) =>
      assert PageStep(view, Opposite(dir)) == Some(Years(-n));
      YearsRoundTrip(a, n);
  }

  /** Years forth and back return to the date exactly when its day exists on the year in between. */
  lemma YearsRoundTrip(a: DateTime, n: int)
    requires Valid(a)
    ensures AddYears(AddYears(a, n), -n) == a <==> a.day <= DaysInMonth(AddYears(a, n).year, AddYears(a, n).month)
  {
    var b := AddYears(a, n);
    AddYearsIsTwelveMonths(a, n);
    AddYearsIsTwelveMonths(b, -n);
    assert 12 * -n == -(12 * n);
    AddMonthsRoundTrip(a, 12 * n);
  }

  /**
   * On the date and week views prev/next move exactly one month and
   * super-prev/super-next exactly one year, keeping the time of day.
   */
  lemma DateViewSteps(view: View, dir: Direction, a: DateTime)
    requires Valid(a) && (view == Date || view == Week)
    ensures MonthIndex(Navigate(view, dir, a).value) == MonthIndex(a) + (
              match dir
              case Prev => -1
              case Next => 1
              case SuperPrev => -12
              case SuperNext => 12)
  {
    if dir == SuperPrev || dir == SuperNext {
      AddYearsIsTwelveMonths(a, if dir == SuperPrev then -1 else 1);
    }
  }

  /**
   * Super steps on the month, quarter, year and decade views move the header
   * by one page: 1, 10 or 100 years, and change neither the month nor the
   * time of day. Plain prev/next do not exist there.
   */
  lemma SuperStepMovesOnePage(view: View, dir: Direction, a: DateTime)
    requires Valid(a) && view in {Month, Quarter, Year, Decade}
    ensures (dir == Prev || dir == Next) <==> Navigate(view, dir, a).None?
    ensures Navigate(view, dir, a).Some? ==>
              var r := Navigate(view, dir, a).value;
              var page := if view == Year then 10 else if view == Decade then 100 else 1;
              var sign := if dir == SuperPrev then -1 else 1;
              && r.year == a.year + sign * page && r.month == a.month
              && HeaderLabel(view, r) == Shift(HeaderLabel(view, a).value, sign * page)
  {
    if dir == SuperPrev || dir == SuperNext {
      var page := if view == Year then 10 else if view == Decade then 100 else 1;
      var sign := if dir == SuperPrev then -1 else 1;
      assert Navigate(view, dir, a) == Some(AddYears(a, sign * page));
      if view == Year {
        PageShift(a.year, sign, 10);
      } else if view == Decade {
        PageShift(a.year, sign, 100);
      }
    }
  }

  /** Moving a year by a whole page moves the first year of its page by the same amount. */
  lemma PageShift(y: int, sign: int, page: int)
    requires sign == 1 || sign == -1
    requires page == 10 || page == 100
    ensures (y + sign * page) - (y + sign * page) % page == y - y % page + sign * page
  {
    if page == 10 {
      if sign == 1 {
        assert (y + 10) % 10 == y % 10;
      } else {
        assert (y - 10) % 10 == y % 10;
      }
    } else {
      if sign == 1 {
        assert (y + 100) % 100 == y % 100;
      } else {
        assert (y - 100) % 100 == y % 100;
      }
    }
  }

  function Shift(l: Label, years: int): Option<Label> {
    match l
    case MonthYear(m, y) => Some(MonthYear(m, y + years))
    case YearOnly(y) => Some(YearOnly(y + years))
    case Span(a, b) => Some(Span(a + years, b + years))
  }

  /**
   * The year and decade headers show aligned spans holding the anchor's
   * year: 10 years from a multiple of ten, 100 from a multiple of a hundred.
   */
  lemma SpansAreAligned(a: DateTime)
    ensures HeaderLabel(Year, a).value.Span?
    ensures var l := HeaderLabel(Year, a).value;
              l.first % 10 == 0 && l.first <= a.year <= l.last && l.last == l.first + 9
    ensures var l := HeaderLabel(Decade, a).value;
              l.first % 100 == 0 && l.first <= a.year <= l.last && l.last == l.first + 99
  {
  }

  /** Header labels depend only on the page, so a super step and back restores the label. */
  lemma SuperRoundTripRestoresLabel(view: View, dir: Direction, a: DateTime)
    requires Valid(a) && view != Time && (dir == SuperPrev || dir == SuperNext)
    ensures HeaderLabel(view, Navigate(view, Opposite(dir), Navigate(view, dir, a).value).value)
         == HeaderLabel(view, a)
  {
    if view == Date || view == Week {
      DateViewSteps(view, dir, a);
      DateViewSteps(view, Opposite(dir), Navigate(view, dir, a).value);
      MonthIndexDetermines(Navigate(view, Opposite(dir), Navigate(view, dir, a).value).value, a);
    }
  }
}
