/** Calendar-safe month offsets (`add_months`). */
module DateArith {
  import opened Wrappers
  import opened Calendar

  /** The year `add_months` in app.py computes with floor division; Dafny's
      `/` by a positive divisor is Python's `//`. It is the year holding the
      month `n` months from `d`'s. */
  function TargetYear(d: Date, n: int): (y: int)
    ensures y * 12 <= MonthIndex(d) + n < y * 12 + 12
  {
    d.year + (d.month - 1 + n) / 12
  }

  /** The month `add_months` in app.py computes with `%`; Dafny's `%` by a
      positive divisor is Python's `%`. It is `n` months from `d`'s month,
      modulo a whole number of years. */
  function TargetMonth(d: Date, n: int): (m: int)
    ensures 1 <= m <= 12
    ensures (d.month + n - m) % 12 == 0
  {
    (d.month - 1 + n) % 12 + 1
  }

  /** The target month lies exactly `n` months from the original one. */
  lemma TargetMonthIndex(d: Date, n: int)
    ensures MonthIndex(Date(TargetYear(d, n), TargetMonth(d, n), 1)) == MonthIndex(d) + n
  {
    var k := d.month - 1 + n;
    assert k == 12 * (k / 12) + k % 12;
  }

  /** The retry loop: step the day down until it fits the month. Starting
      from a positive day it stops at the largest fitting day not above it. */
  function ClampDay(y: int, m: int, day: int): (r: int)
    requires 1 <= m <= 12
    requires day >= 1
    ensures 1 <= r <= day
    ensures r <= DaysInMonth(y, m)
    ensures r == day || r == DaysInMonth(y, m)
    decreases day
  {
    if day <= DaysInMonth(y, m) then day else ClampDay(y, m, day - 1)
  }

  /** `add_months` with the retry loop's hidden failure made explicit: `None`
      where the target year is outside what a `date` can hold (the loop in
      app.py never returns a date there, see `TryDays`). */
  function AddMonths(d: Date, n: int): (r: Option<Date>)
    requires Valid(d)
    ensures r.None? <==> !YearInRange(TargetYear(d, n))
    ensures r.Some? ==> Valid(r.value)
    ensures r.Some? ==> MonthIndex(r.value) == MonthIndex(d) + n
    ensures r.Some? ==> r.value.day <= d.day
    ensures r.Some? ==> (r.value.day == d.day <==> d.day <= DaysInMonth(r.value.year, r.value.month))
    ensures r.Some? && r.value.day < d.day ==> r.value.day == DaysInMonth(r.value.year, r.value.month)
    ensures r.Some? && d.day <= 28 ==> r.value.day == d.day
  {
    var y := TargetYear(d, n);
    var m := TargetMonth(d, n);
    if !YearInRange(y) then None
    else
      TargetMonthIndex(d, n);
      Some(Date(y, m, ClampDay(y, m, d.day)))
  }

  /** Adding no months to a valid date returns it unchanged. */
  lemma AddMonthsZero(d: Date)
    requires Valid(d)
    ensures AddMonths(d, 0) == Some(d)
  {
    var r := AddMonths(d, 0);
    assert r.Some?;
    MonthIndexDetermines(r.value, d);
  }

  /** The day of month survives exactly when it exists in the target month;
      otherwise it becomes the target month's last day. */
  lemma AddMonthsDay(d: Date, n: int)
    requires Valid(d)
    requires AddMonths(d, n).Some?
    ensures var r := AddMonths(d, n).value;
      r.day == if d.day <= DaysInMonth(r.year, r.month) then d.day else DaysInMonth(r.year, r.month)
  {
  }

  /** Going `n` months forward and `n` back returns to the original month, with
      the day clamped at most; when the day fitted the intermediate month the
      round trip is exact. */
  lemma AddMonthsRoundTrip(d: Date, n: int)
    requires Valid(d)
    requires AddMonths(d, n).Some?
    ensures AddMonths(AddMonths(d, n).value, -n).Some?
    ensures var back := AddMonths(AddMonths(d, n).value, -n).value;
      back.year == d.year && back.month == d.month && back.day <= d.day
    ensures d.day <= DaysInMonth(AddMonths(d, n).value.year, AddMonths(d, n).value.month)
      ==> AddMonths(AddMonths(d, n).value, -n) == Some(d)
  {
    var r := AddMonths(d, n).value;
    TargetMonthIndex(r, -n);
    var t := Date(TargetYear(r, -n), TargetMonth(r, -n), 1);
    MonthIndexDetermines(t, d);
    var back := AddMonths(r, -n).value;
    MonthIndexDetermines(back, d);
  }

  // ----- The loop of `add_months` as app.py writes it -----

  /** At most `fuel` rounds of the `while True` loop in `add_months`: try
      `date(y, m, day)`; on `ValueError` decrement the day and retry. `None`
      means the loop has not returned yet. A date it returns is valid, in the
      month tried, and one of the `fuel` days tried. */
  function TryDays(y: int, m: int, day: int, fuel: nat): (r: Option<Date>)
    ensures r.Some? ==> Valid(r.value) && r.value.year == y && r.value.month == m
    ensures r.Some? ==> day - fuel < r.value.day <= day
    decreases fuel
  {
    if fuel == 0 then None
    else if Valid(Date(y, m, day)) then Some(Date(y, m, day))
    else TryDays(y, m, day - 1, fuel - 1)
  }

  /** `add_months` in app.py, run for at most `fuel` loop rounds. A date it
      returns is valid, `n` months on, and no later in its month than `d`. */
  function AddMonthsAsWritten(d: Date, n: int, fuel: nat): (r: Option<Date>)
    ensures r.Some? ==> Valid(r.value) && MonthIndex(r.value) == MonthIndex(d) + n
    ensures r.Some? ==> r.value.day <= d.day
  {
    TargetMonthIndex(d, n);
    TryDays(TargetYear(d, n), TargetMonth(d, n), d.day, fuel)
  }

  /** Outside years 1..9999 every `date(...)` call raises, so the loop never
      returns however long it runs. */
  lemma {:induction false} TryDaysNeverReturns(y: int, m: int, day: int, fuel: nat)
    requires !YearInRange(y)
    ensures TryDays(y, m, day, fuel) == None
    decreases fuel
  {
    if fuel > 0 {
      TryDaysNeverReturns(y, m, day - 1, fuel - 1);
    }
  }

  /** Inside the year range the loop returns the clamped day once it has been
      given enough rounds. */
  lemma {:induction false} TryDaysReturnsClamped(y: int, m: int, day: int, fuel: nat)
    requires YearInRange(y) && 1 <= m <= 12 && day >= 1
    requires fuel > day - ClampDay(y, m, day)
    ensures TryDays(y, m, day, fuel) == Some(Date(y, m, ClampDay(y, m, day)))
    decreases day
  {
    if day > DaysInMonth(y, m) {
      TryDaysReturnsClamped(y, m, day - 1, fuel - 1);
    }
  }

  /** The corrected `AddMonths` returns what the loop of `add_months` returns
      whenever that loop returns a date, and reports failure exactly where
      the loop never returns one. */
  lemma AddMonthsMatchesLoop(d: Date, n: int)
    requires Valid(d)
    ensures AddMonths(d, n).Some? ==>
      forall fuel: nat :: fuel > d.day ==> AddMonthsAsWritten(d, n, fuel) == AddMonths(d, n)
    ensures AddMonths(d, n).None? ==>
      forall fuel: nat :: AddMonthsAsWritten(d, n, fuel) == None
  {
    var y, m := TargetYear(d, n), TargetMonth(d, n);
    forall fuel: nat
      ensures AddMonths(d, n).Some? && fuel > d.day ==> AddMonthsAsWritten(d, n, fuel) == AddMonths(d, n)
      ensures AddMonths(d, n).None? ==> AddMonthsAsWritten(d, n, fuel) == None
    {
      if YearInRange(y) {
        if fuel > d.day {
          TryDaysReturnsClamped(y, m, d.day, fuel);
        }
      } else {
        TryDaysNeverReturns(y, m, d.day, fuel);
      }
    }
  }

  /** The concrete hang: one month after 31 December 9999 the loop never
      returns, while the corrected function reports the overflow. */
  lemma AddMonthsAsWrittenHangsAfterMaxYear(fuel: nat)
    ensures AddMonthsAsWritten(Date(9999, 12, 31), 1, fuel) == None
    ensures AddMonths(Date(9999, 12, 31), 1) == None
  {
    TryDaysNeverReturns(10000, 1, 31, fuel);
  }
}
