/**
  The part of Python's `datetime` and `calendar` modules that the budget-cycle
  resolver relies on: proleptic Gregorian dates in years 1 through 9999, month
  lengths with leap years, the date ordering, day ordinals, and adding or
  subtracting whole days.

  Python raises `ValueError` when `datetime.date(y, m, d)` is given a day that
  does not exist, and `OverflowError` when an argument does not fit a C `int`
  or day arithmetic leaves years 1..9999; the model returns `Err(InvalidDate)`
  and `Err(OutOfRange)` instead.
*/
module Calendar {
  import opened Wrappers

  const MinYear: int := 1
  const MaxYear: int := 9999

  /** The ordinal of 9999-12-31, the last date Python can represent. */
  const MaxOrdinal: int := 3652059

  datatype Date = Date(year: int, month: int, day: int)

  datatype DateError =
    | InvalidDate   // ValueError raised by the date constructor
    | OutOfRange    // OverflowError raised by date arithmetic or a too-wide argument

  type DateResult = Result<Date, DateError>

  predicate IsLeapYear(y: int) {
    y % 4 == 0 && (y % 100 != 0 || y % 400 == 0)
  }

  function DaysInYear(y: int): int {
    if IsLeapYear(y) then 366 else 365
  }

  /** The second component of `calendar.monthrange(y, m)`. */
  function DaysInMonth(y: int, m: int): (n: int)
    requires 1 <= m <= 12
    ensures 28 <= n <= 31
  {
    if m == 2 then (if IsLeapYear(y) then 29 else 28)
    else if m == 4 || m == 6 || m == 9 || m == 11 then 30
    else 31
  }

  /** February has 29 days exactly in a leap year; of the other months, April,
      June, September and November have 30 days and the rest 31. */
  lemma MonthLengths(y: int, m: int)
    requires 1 <= m <= 12
    ensures m == 2 ==> (DaysInMonth(y, m) == 29 <==> IsLeapYear(y))
    ensures m != 2 ==> (DaysInMonth(y, m) == 30 <==> m == 4 || m == 6 || m == 9 || m == 11)
    ensures m != 2 ==> (DaysInMonth(y, m) == 31 <==> !(m == 4 || m == 6 || m == 9 || m == 11))
  {
  }

  /** The dates `datetime.date` accepts. */
  predicate IsValid(d: Date) {
    && MinYear <= d.year <= MaxYear
    && 1 <= d.month <= 12
    && 1 <= d.day <= DaysInMonth(d.year, d.month)
  }

  /** `a < b` on dates: lexicographic on (year, month, day). */
  predicate Before(a: Date, b: Date) {
    || a.year < b.year
    || (a.year == b.year && a.month < b.month)
    || (a.year == b.year && a.month == b.month && a.day < b.day)
  }

  /** The values CPython's argument parser accepts for a C `int`. */
  predicate IsCInt(x: int) {
    -0x8000_0000 <= x <= 0x7fff_ffff
  }

  /**
    `datetime.date(y, m, d)`: the date; `OverflowError` when an argument does
    not fit a C `int` (checked first, while the arguments are parsed); and
    `ValueError` when the date does not exist.
  */
  function MakeDate(y: int, m: int, d: int): (r: DateResult)
    ensures r.Ok? <==> IsValid(Date(y, m, d))
    ensures r.Ok? ==> r.value == Date(y, m, d)
    ensures r.Err? ==> r.error == (if IsCInt(y) && IsCInt(m) && IsCInt(d) then InvalidDate else OutOfRange)
  {
    if !(IsCInt(y) && IsCInt(m) && IsCInt(d)) then Err(OutOfRange)
    else if IsValid(Date(y, m, d)) then Ok(Date(y, m, d))
    else Err(InvalidDate)
  }

  // ---------------------------------------------------------------------------
  // Ordinals, numbered as `date.toordinal()` does: 0001-01-01 is day 1.

  /** Days in the years before `y` (Python's `_days_before_year`). */
  function DaysBeforeYear(y: int): int
    requires y >= 1
  {
    var p := y - 1;
    p * 365 + p / 4 - p / 100 + p / 400
  }

  /** Days in the months of year `y` before month `m` (Python's `_days_before_month`). */
  function DaysBeforeMonth(y: int, m: int): int
    requires 1 <= m <= 12
  {
    [0, 31, 59, 90, 120, 151, 181, 212, 243, 273, 304, 334][m - 1]
      + (if m > 2 && IsLeapYear(y) then 1 else 0)
  }

  function Ordinal(d: Date): int
    requires IsValid(d)
  {
    DaysBeforeYear(d.year) + DaysBeforeMonth(d.year, d.month) + d.day
  }

  /** The closed form of `DaysBeforeYear` adds up the lengths of the years. */
  lemma DaysBeforeYearStep(y: int)
    requires y >= 1
    ensures DaysBeforeYear(y + 1) == DaysBeforeYear(y) + DaysInYear(y)
  {
    var p := y - 1;
    assert y / 4 - p / 4 == (if y % 4 == 0 then 1 else 0);
    assert y / 100 - p / 100 == (if y % 100 == 0 then 1 else 0);
    assert y / 400 - p / 400 == (if y % 400 == 0 then 1 else 0);
    assert y % 400 == 0 ==> y % 100 == 0;
    assert y % 100 == 0 ==> y % 4 == 0;
  }

  /** A month ends exactly where the next one in the same year begins. */
  lemma DaysBeforeMonthStep(y: int, m: int)
    requires 1 <= m < 12
    ensures DaysBeforeMonth(y, m + 1) == DaysBeforeMonth(y, m) + DaysInMonth(y, m)
  {
  }

  /** December ends exactly where the year ends. */
  lemma DaysBeforeDecember(y: int)
    ensures DaysBeforeMonth(y, 12) + DaysInMonth(y, 12) == DaysInYear(y)
  {
  }

  lemma {:induction false} DaysBeforeMonthMonotone(y: int, m1: int, m2: int)
    requires 1 <= m1 < m2 <= 12
    ensures DaysBeforeMonth(y, m1) + DaysInMonth(y, m1) <= DaysBeforeMonth(y, m2)
    decreases m2 - m1
  {
    DaysBeforeMonthStep(y, m1);
    if m1 + 1 < m2 {
      DaysBeforeMonthMonotone(y, m1 + 1, m2);
    }
  }

  lemma {:induction false} DaysBeforeYearMonotone(y1: int, y2: int)
    requires 1 <= y1 < y2
    ensures DaysBeforeYear(y1) + DaysInYear(y1) <= DaysBeforeYear(y2)
    decreases y2 - y1
  {
    DaysBeforeYearStep(y1);
    if y1 + 1 < y2 {
      DaysBeforeYearMonotone(y1 + 1, y2);
    }
  }

  /** Every day of a month lies inside its year. */
  lemma MonthInsideYear(y: int, m: int)
    requires 1 <= m <= 12
    ensures DaysBeforeMonth(y, m) + DaysInMonth(y, m) <= DaysInYear(y)
  {
    if m < 12 {
      DaysBeforeMonthMonotone(y, m, 12);
    }
    DaysBeforeDecember(y);
  }

  /** The ordinal is strictly increasing in the date order. */
  lemma OrdinalMonotone(a: Date, b: Date)
    requires IsValid(a) && IsValid(b)
    requires Before(a, b)
    ensures Ordinal(a) < Ordinal(b)
  {
    if a.year < b.year {
      MonthInsideYear(a.year, a.month);
      DaysBeforeYearMonotone(a.year, b.year);
    } else if a.month < b.month {
      DaysBeforeMonthMonotone(a.year, a.month, b.month);
    }
  }

  /** Distinct valid dates have distinct ordinals, so an ordinal names one date. */
  lemma OrdinalInjective(a: Date, b: Date)
    requires IsValid(a) && IsValid(b)
    requires Ordinal(a) == Ordinal(b)
    ensures a == b
  {
    if Before(a, b) {
      OrdinalMonotone(a, b);
    } else if Before(b, a) {
      OrdinalMonotone(b, a);
    }
  }

  /** Valid dates have the ordinals 1 through `MaxOrdinal`, as `date.toordinal()` does. */
  lemma OrdinalRange(d: Date)
    requires IsValid(d)
    ensures 1 <= Ordinal(d) <= MaxOrdinal
    ensures Ordinal(d) == MaxOrdinal <==> d == Date(MaxYear, 12, 31)
    ensures Ordinal(d) == 1 <==> d == Date(MinYear, 1, 1)
  {
    var last := Date(MaxYear, 12, 31);
    if d != last {
      OrdinalMonotone(d, last);
    }
    var first := Date(MinYear, 1, 1);
    if d != first {
      OrdinalMonotone(first, d);
    }
  }

  // ---------------------------------------------------------------------------
  // Day arithmetic: `d + timedelta(days=n)` and `d - timedelta(days=1)`.

  /** The first day of a month directly follows the last day of the month before. */
  lemma OrdinalAcrossMonthEnd(y: int, m: int)
    requires MinYear <= y <= MaxYear && 1 <= m <= 12 && !(y == MaxYear && m == 12)
    ensures var (ny, nm) := if m == 12 then (y + 1, 1) else (y, m + 1);
            IsValid(Date(ny, nm, 1))
            && Ordinal(Date(ny, nm, 1)) == Ordinal(Date(y, m, DaysInMonth(y, m))) + 1
  {
    if m < 12 {
      DaysBeforeMonthStep(y, m);
    } else {
      DaysBeforeDecember(y);
      DaysBeforeYearStep(y);
    }
  }

  /** `d + timedelta(days=1)`. */
  function NextDay(d: Date): (r: DateResult)
    requires IsValid(d)
    ensures r.Ok? <==> Ordinal(d) < MaxOrdinal
    ensures r.Ok? ==> IsValid(r.value) && Ordinal(r.value) == Ordinal(d) + 1
    ensures r.Err? ==> r.error == OutOfRange
  {
    OrdinalRange(d);
    if d.day < DaysInMonth(d.year, d.month) then
      Ok(Date(d.year, d.month, d.day + 1))
    else if d.year == MaxYear && d.month == 12 then
      Err(OutOfRange)
    else
      OrdinalAcrossMonthEnd(d.year, d.month);
      if d.month < 12 then Ok(Date(d.year, d.month + 1, 1)) else Ok(Date(d.year + 1, 1, 1))
  }

  /** `d - timedelta(days=1)`. */
  function PrevDay(d: Date): (r: DateResult)
    requires IsValid(d)
    ensures r.Ok? <==> Ordinal(d) > 1
    ensures r.Ok? ==> IsValid(r.value) && Ordinal(r.value) == Ordinal(d) - 1
    ensures r.Err? ==> r.error == OutOfRange
  {
    OrdinalRange(d);
    if d.day > 1 then
      assert Ordinal(Date(d.year, d.month, d.day - 1)) == Ordinal(d) - 1;
      Ok(Date(d.year, d.month, d.day - 1))
    else if d.year == MinYear && d.month == 1 then
      Err(OutOfRange)
    else if d.month > 1 then
      OrdinalAcrossMonthEnd(d.year, d.month - 1);
      Ok(Date(d.year, d.month - 1, DaysInMonth(d.year, d.month - 1)))
    else
      OrdinalAcrossMonthEnd(d.year - 1, 12);
      Ok(Date(d.year - 1, 12, 31))
  }

  /** `d + timedelta(days=n)` for `n >= 0`: the date `n` days later, or
      `OverflowError` when that date is past 9999-12-31. */
  function AddDays(d: Date, n: nat): (r: DateResult)
    requires IsValid(d)
    ensures r.Ok? <==> Ordinal(d) + n <= MaxOrdinal
    ensures r.Ok? ==> IsValid(r.value) && Ordinal(r.value) == Ordinal(d) + n
    ensures r.Err? ==> r.error == OutOfRange
    decreases n
  {
    if n == 0 then
      Ok(d)
    else
      match NextDay(d)
      case Err(e) => Err(e)
      case Ok(next) => AddDays(next, n - 1)
  }
}
