/** Proleptic Gregorian calendar dates, as Python's `datetime.date` accepts them. */
module Calendar {

  /** Smallest and largest year a Python `date` can hold. */
  const MinYear: int := 1
  const MaxYear: int := 9999

  datatype Date = Date(year: int, month: int, day: int)

  predicate IsLeapYear(y: int) {
    y % 4 == 0 && (y % 100 != 0 || y % 400 == 0)
  }

  function DaysInMonth(y: int, m: int): (n: int)
    requires 1 <= m <= 12
    ensures 28 <= n <= 31
    ensures n == 29 <==> m == 2 && IsLeapYear(y)
    ensures n == 28 <==> m == 2 && !IsLeapYear(y)
    ensures n == 30 <==> m in {4, 6, 9, 11}
  {
    if m == 2 then (if IsLeapYear(y) then 29 else 28)
    else if m in {4, 6, 9, 11} then 30
    else 31
  }

  predicate YearInRange(y: int) {
    MinYear <= y <= MaxYear
  }

  /** Exactly the triples the `date(year, month, day)` constructor accepts
      without raising `ValueError`. */
  predicate Valid(d: Date) {
    && YearInRange(d.year)
    && 1 <= d.month <= 12
    && 1 <= d.day <= DaysInMonth(d.year, d.month)
  }

  /** Months elapsed since January of year 0: the position of a date's month
      on a single line, so that month offsets become integer addition. */
  function MonthIndex(d: Date): int {
    d.year * 12 + d.month - 1
  }

  /** Chronological order of dates (for valid dates this is the order of
      Python's `date` comparison). */
  predicate Before(a: Date, b: Date) {
    MonthIndex(a) < MonthIndex(b) || (MonthIndex(a) == MonthIndex(b) && a.day < b.day)
  }

  predicate NotAfter(a: Date, b: Date) {
    Before(a, b) || (MonthIndex(a) == MonthIndex(b) && a.day == b.day)
  }

  /** Two valid dates on the same month line and day are the same date. */
  lemma MonthIndexDetermines(a: Date, b: Date)
    requires 1 <= a.month <= 12 && 1 <= b.month <= 12
    requires MonthIndex(a) == MonthIndex(b)
    ensures a.year == b.year && a.month == b.month
  {
  }

  /** `Before` on valid dates agrees with lexicographic (year, month, day) order. */
  lemma BeforeIsLexicographic(a: Date, b: Date)
    requires Valid(a) && Valid(b)
    ensures Before(a, b) <==>
      a.year < b.year
      || (a.year == b.year && a.month < b.month)
      || (a.year == b.year && a.month == b.month && a.day < b.day)
  {
    if MonthIndex(a) == MonthIndex(b) {
      MonthIndexDetermines(a, b);
    } else if a.year < b.year {
      assert MonthIndex(a) <= a.year * 12 + 11 < b.year * 12 <= MonthIndex(b);
    } else if a.year > b.year {
      assert MonthIndex(b) <= b.year * 12 + 11 < a.year * 12 <= MonthIndex(a);
    }
  }
}
