/**
 * Proleptic Gregorian calendar dates as Python's `datetime.date` sees them,
 * and the month-window computation of `get_date_range` (updates.py).
 */
module Calendar {
  import opened Wrappers

  /** `datetime.MAXYEAR`: a date after 9999-12-31 raises OverflowError. */
  const MaxYear := 9999

  datatype Date = Date(year: int, month: int, day: int)

  predicate IsLeapYear(y: int) {
    y % 4 == 0 && (y % 100 != 0 || y % 400 == 0)
  }

  /** Length of month `m` of year `y`, leap years included. */
  function DaysInMonth(y: int, m: int): (n: int)
    requires 1 <= m <= 12
    ensures 28 <= n <= 31
    ensures m == 2 ==> (n == 29 <==> IsLeapYear(y))
  {
    if m == 2 then (if IsLeapYear(y) then 29 else 28)
    else if m == 4 || m == 6 || m == 9 || m == 11 then 30
    else 31
  }

  /** A day of the proleptic Gregorian calendar from year 1 on (no upper bound). */
  predicate IsCalendarDate(d: Date) {
    1 <= d.year && 1 <= d.month <= 12 && 1 <= d.day <= DaysInMonth(d.year, d.month)
  }

  /** What `date(year, month, day)` accepts without raising ValueError. */
  predicate IsValidDate(d: Date)
    ensures IsValidDate(d) ==> 1 <= d.year <= MaxYear && 1 <= d.month <= 12 && 1 <= d.day <= 31
  {
    IsCalendarDate(d) && d.year <= MaxYear
  }

  /** `a < b` on dates: chronological, i.e. lexicographic on (year, month, day). */
  predicate Before(a: Date, b: Date) {
    a.year < b.year
    || (a.year == b.year && (a.month < b.month || (a.month == b.month && a.day < b.day)))
  }

  /** `a <= b` on dates. */
  predicate NotAfter(a: Date, b: Date) {
    Before(a, b) || a == b
  }

  /** The day after `d` (`d + timedelta(days=1)`, without the year bound). */
  function NextDay(d: Date): (r: Date)
    requires IsCalendarDate(d)
    ensures IsCalendarDate(r) && Before(d, r)
  {
    if d.day < DaysInMonth(d.year, d.month) then Date(d.year, d.month, d.day + 1)
    else if d.month < 12 then Date(d.year, d.month + 1, 1)
    else Date(d.year + 1, 1, 1)
  }

  /** The day before `d` (`d - timedelta(days=1)`); 0001-01-01 has none. */
  function PrevDay(d: Date): (r: Date)
    requires IsCalendarDate(d) && d != Date(1, 1, 1)
    ensures IsCalendarDate(r) && Before(r, d)
  {
    if d.day > 1 then Date(d.year, d.month, d.day - 1)
    else if d.month > 1 then Date(d.year, d.month - 1, DaysInMonth(d.year, d.month - 1))
    else Date(d.year - 1, 12, 31)
  }

  /** `d + timedelta(days=n)`, one day at a time. */
  function AddDays(d: Date, n: nat): (r: Date)
    requires IsCalendarDate(d)
    ensures IsCalendarDate(r)
    ensures n > 0 ==> Before(d, r)
    decreases n
  {
    if n == 0 then d else AddDays(NextDay(d), n - 1)
  }

  /** First day of the month after the month of `d`. */
  function NextMonthStart(d: Date): Date {
    if d.month < 12 then Date(d.year, d.month + 1, 1) else Date(d.year + 1, 1, 1)
  }

  /** The day before the next month's first day is the last day of this month. */
  lemma PrevMonthEnd(d: Date)
    requires IsCalendarDate(d)
    ensures IsCalendarDate(NextMonthStart(d)) && NextMonthStart(d) != Date(1, 1, 1)
    ensures PrevDay(NextMonthStart(d)) == Date(d.year, d.month, DaysInMonth(d.year, d.month))
  {
  }

  /** No calendar date lies strictly between `d` and `NextDay(d)`. */
  lemma NextDayIsImmediate(d: Date, e: Date)
    requires IsCalendarDate(d) && IsCalendarDate(e) && Before(d, e)
    ensures NotAfter(NextDay(d), e)
  {
  }

  /** No calendar date lies strictly between `PrevDay(d)` and `d`. */
  lemma PrevDayIsImmediate(d: Date, e: Date)
    requires IsCalendarDate(d) && d != Date(1, 1, 1) && IsCalendarDate(e) && Before(e, d)
    ensures NotAfter(e, PrevDay(d))
  {
  }

  /** `AddDays(d, n)` is the `n`-th successor: one more day is one more `NextDay`. */
  lemma {:induction false} AddDaysSucc(d: Date, n: nat)
    requires IsCalendarDate(d)
    ensures AddDays(d, n + 1) == NextDay(AddDays(d, n))
    decreases n
  {
    if n > 0 {
      AddDaysSucc(NextDay(d), n - 1);
    }
  }

  lemma PrevNextDay(d: Date)
    requires IsCalendarDate(d)
    ensures NextDay(d) != Date(1, 1, 1) && PrevDay(NextDay(d)) == d
  {
  }

  lemma {:induction false} AddDaysWithinMonth(d: Date, n: nat)
    requires IsCalendarDate(d) && d.day + n <= DaysInMonth(d.year, d.month)
    ensures AddDays(d, n) == Date(d.year, d.month, d.day + n)
    decreases n
  {
    if n > 0 {
      AddDaysWithinMonth(NextDay(d), n - 1);
    }
  }

  lemma {:induction false} AddDaysSplit(d: Date, a: nat, b: nat)
    requires IsCalendarDate(d)
    ensures AddDays(d, a + b) == AddDays(AddDays(d, a), b)
    decreases a
  {
    if a > 0 {
      AddDaysSplit(NextDay(d), a - 1, b);
    }
  }

  /** From day 1, 32 days means walking to the month's last day, then one day into the next month. */
  lemma AcrossMonthEnd(first: Date)
    requires IsCalendarDate(first) && first.day == 1
    ensures var len := DaysInMonth(first.year, first.month);
      IsCalendarDate(NextMonthStart(first)) && AddDays(first, 32) == AddDays(NextMonthStart(first), 32 - len)
  {
    var len := DaysInMonth(first.year, first.month);
    var last := Date(first.year, first.month, len);
    var k: nat := 32 - len;
    assert NextDay(last) == NextMonthStart(first);
    assert AddDays(first, 32) == AddDays(last, k + 1) by {
      AddDaysSplit(first, len - 1, k + 1);
      AddDaysWithinMonth(first, len - 1);
    }
  }

  /** Day 1 plus 32 days always lands in the next month, on day 33 minus this month's length. */
  lemma AddThirtyTwoDays(first: Date)
    requires IsCalendarDate(first) && first.day == 1
    ensures var len := DaysInMonth(first.year, first.month);
      var next := NextMonthStart(first);
      AddDays(first, 32) == Date(next.year, next.month, 33 - len)
  {
    AcrossMonthEnd(first);
    AddDaysWithinMonth(NextMonthStart(first), 32 - DaysInMonth(first.year, first.month));
  }

  /**
   * `get_date_range` with `today` as a parameter: the first and last day of
   * today's month, computed as the source does (day 1, plus 32 days, back to
   * day 1, minus one day). `None` is the OverflowError that `+ timedelta(32)`
   * raises in December of the last representable year.
   */
  function GetDateRange(today: Date): (r: Option<(Date, Date)>)
    requires IsValidDate(today)
    ensures r.None? <==> today.year == MaxYear && today.month == 12
    ensures r.Some? ==>
      var (first, last) := r.value;
      first == Date(today.year, today.month, 1)
      && last == Date(today.year, today.month, DaysInMonth(today.year, today.month))
      && IsValidDate(first) && IsValidDate(last)
      && NotAfter(first, today) && NotAfter(today, last)
  {
    var first := Date(today.year, today.month, 1);
    var later := AddDays(first, 32);
    AddThirtyTwoDays(first);
    assert Date(later.year, later.month, 1) == NextMonthStart(today);
    if later.year > MaxYear then None
    else
      PrevMonthEnd(today);
      var last := PrevDay(Date(later.year, later.month, 1));
      Some((first, last))
  }

  /** The upper bound of the window really is the last day of the month. */
  lemma LastDayOfMonth(today: Date)
    requires IsValidDate(today) && GetDateRange(today).Some?
    ensures var last := GetDateRange(today).value.1;
      NextDay(last) == NextMonthStart(today)
  {
  }
}
