/**
  Calendar dates and timestamps, with the month arithmetic that
  `now + relativedelta(months=+k)` performs on a datetime: move by whole
  months, clamp the day to the length of the target month, keep the time of
  day, and raise when the year leaves the range 1..9999 of a datetime.
 */
module Calendar {
  import opened Wrappers

  datatype Date = Date(year: int, month: int, day: int)

  /** A point in time: its calendar date and the microseconds since midnight. */
  datatype Timestamp = Timestamp(date: Date, micros: nat)

  const MinYear: int := 1
  const MaxYear: int := 9999

  predicate IsLeapYear(y: int) {
    y % 4 == 0 && (y % 100 != 0 || y % 400 == 0)
  }

  function DaysInMonth(y: int, m: int): (n: int)
    ensures 28 <= n <= 31
    ensures n == 28 <==> m == 2 && !IsLeapYear(y)
  {
    if m == 2 then (if IsLeapYear(y) then 29 else 28)
    else if m == 4 || m == 6 || m == 9 || m == 11 then 30
    else 31
  }

  predicate ValidDate(d: Date) {
    MinYear <= d.year <= MaxYear && 1 <= d.month <= 12 && 1 <= d.day <= DaysInMonth(d.year, d.month)
  }

  /** Months elapsed since January of year 0. */
  function MonthIndex(d: Date): int {
    d.year * 12 + (d.month - 1)
  }

  /** Calendar order on dates: year, then month, then day. */
  predicate DateLe(a: Date, b: Date) {
    a.year < b.year || (a.year == b.year && (a.month < b.month || (a.month == b.month && a.day <= b.day)))
  }

  /**
    `t` moved by `k` months (k may be negative); None where the datetime
    library raises because the target year is out of range.
   */
  function AddMonths(t: Timestamp, k: int): (r: Option<Timestamp>)
    ensures r.Some? <==> MonthIndex(Date(MinYear, 1, 1)) <= MonthIndex(t.date) + k <= MonthIndex(Date(MaxYear, 12, 1))
    ensures r.Some? ==> MonthIndex(r.value.date) == MonthIndex(t.date) + k && r.value.micros == t.micros
    ensures r.Some? ==> 1 <= r.value.date.month <= 12 && r.value.date.day <= t.date.day
    ensures r.Some? ==> r.value.date.day == t.date.day || r.value.date.day == DaysInMonth(r.value.date.year, r.value.date.month)
    ensures r.Some? && t.date.day <= 28 ==> r.value.date.day == t.date.day
    ensures r.Some? && 1 <= t.date.day ==> ValidDate(r.value.date)
  {
    var target := MonthIndex(t.date) + k;
    var year := target / 12;
    var month := target % 12 + 1;
    if MinYear <= year <= MaxYear then
      var last := DaysInMonth(year, month);
      Some(Timestamp(Date(year, month, if t.date.day <= last then t.date.day else last), t.micros))
    else
      None
  }

  /** A month index splits back into the year and the month it came from. */
  lemma MonthIndexParts(d: Date)
    requires 1 <= d.month <= 12
    ensures MonthIndex(d) / 12 == d.year && MonthIndex(d) % 12 == d.month - 1
  {
    var x := MonthIndex(d);
    assert x == d.year * 12 + (d.month - 1) && 0 <= d.month - 1 < 12;
    assert x / 12 == d.year && x % 12 == d.month - 1;
  }

  /** On valid months, a smaller month index means an earlier (year, month). */
  lemma MonthIndexOrder(a: Date, b: Date)
    requires 1 <= a.month <= 12 && 1 <= b.month <= 12
    requires MonthIndex(a) < MonthIndex(b)
    ensures a.year < b.year || (a.year == b.year && a.month < b.month)
  {
    MonthIndexParts(a);
    MonthIndexParts(b);
    assert a.year * 12 <= MonthIndex(a) < MonthIndex(b) < (b.year + 1) * 12;
  }

  /** Moving a valid date by zero months gives it back unchanged. */
  lemma AddZeroMonths(t: Timestamp)
    requires ValidDate(t.date)
    ensures AddMonths(t, 0) == Some(t)
  {
    MonthIndexParts(t.date);
  }

  /** Moving forward by a non-negative number of months never lands on an earlier date. */
  lemma AddMonthsNotEarlier(t: Timestamp, k: int)
    requires ValidDate(t.date) && k >= 0
    requires AddMonths(t, k).Some?
    ensures DateLe(t.date, AddMonths(t, k).value.date)
  {
    var r := AddMonths(t, k).value;
    if k == 0 {
      AddZeroMonths(t);
    } else {
      MonthIndexOrder(t.date, r.date);
    }
  }
}
