/**
  The budget-cycle resolver of app.py. A cycle begins on the anchor day of
  each month (the user's salary credit day), clamped to the month's last day;
  the resolver maps a reference date to the start of the cycle containing it.
  The reference date is a parameter instead of a read of the system clock.
*/
module Cycle {
  import opened Wrappers
  import opened Calendar

  /** `get_actual_day`: the anchor clamped to the length of month `m` of year `y`. */
  function ActualDay(y: int, m: int, anchor: int): (t: int)
    requires 1 <= m <= 12
    ensures t <= anchor && t <= DaysInMonth(y, m)
    ensures t == anchor || t == DaysInMonth(y, m)
  {
    var lastDay := DaysInMonth(y, m);
    if lastDay < anchor then lastDay else anchor
  }

  /** `s` is where a cycle of `anchor` begins: the clamped anchor day of its month. */
  predicate IsCycleStart(anchor: int, s: Date) {
    IsValid(s) && s.day == ActualDay(s.year, s.month, anchor)
  }

  /** The calendar month before month `m` of year `y`. */
  function PrevMonth(y: int, m: int): (int, int) {
    if m == 1 then (y - 1, 12) else (y, m - 1)
  }

  /** The calendar month after month `m` of year `y`. */
  function NextMonth(y: int, m: int): (int, int) {
    if m == 12 then (y + 1, 1) else (y, m + 1)
  }

  lemma PrevOfNextMonth(y: int, m: int)
    requires 1 <= m <= 12
    ensures PrevMonth(NextMonth(y, m).0, NextMonth(y, m).1) == (y, m)
  {
  }

  /** A month counted from year 0, so that consecutive months differ by one. */
  function MonthIndex(d: Date): int {
    d.year * 12 + d.month - 1
  }

  /**
    `get_current_cycle_start(anchor, today)`. Fails with `InvalidDate` when
    the anchor is below 1 (the date constructor rejects day 0 or less), and
    with `OutOfRange` when the cycle would start before 0001-01-01 or the
    anchor is too negative to fit a C `int`.
  */
  function CycleStart(anchor: int, today: Date): (r: DateResult)
    requires IsValid(today)
    ensures r.Err? <==> anchor < 1 || (today.year == MinYear && today.month == 1
                                        && today.day < ActualDay(today.year, today.month, anchor))
    ensures r.Err? ==> r.error == (if anchor < 1 && IsCInt(anchor) then InvalidDate else OutOfRange)
    // the result is a cycle start of this anchor and is not after today
    ensures r.Ok? ==> IsCycleStart(anchor, r.value) && !Before(today, r.value)
    ensures r.Ok? ==> (r.value == today <==> today.day == ActualDay(today.year, today.month, anchor))
    // the cycle began this month, or else in the calendar month before
    ensures r.Ok? && today.day >= ActualDay(today.year, today.month, anchor) ==>
              r.value.year == today.year && r.value.month == today.month
    ensures r.Ok? && today.day < ActualDay(today.year, today.month, anchor) ==>
              (r.value.year, r.value.month) == PrevMonth(today.year, today.month)
  {
    var currentTargetDay := ActualDay(today.year, today.month, anchor);
    if today.day >= currentTargetDay then
      MakeDate(today.year, today.month, currentTargetDay)
    else
      var firstOfThisMonth := Date(today.year, today.month, 1);
      match PrevDay(firstOfThisMonth)
      case Err(e) => Err(e)
      case Ok(lastOfPrevMonth) =>
        var prevTargetDay := ActualDay(lastOfPrevMonth.year, lastOfPrevMonth.month, anchor);
        MakeDate(lastOfPrevMonth.year, lastOfPrevMonth.month, prevTargetDay)
  }

  /**
    The start of the cycle after the one beginning at `cycleStart`, found the
    way `download_statement` does: resolve the date 32 days later.
  */
  function NextCycleStart(anchor: int, cycleStart: Date): (r: DateResult)
    requires IsValid(cycleStart)
    ensures r.Err? <==> anchor < 1 || Ordinal(cycleStart) + 32 > MaxOrdinal
    // the overflow of `cycle_start + 32 days` is raised before the resolver runs
    ensures r.Err? ==> r.error == (if Ordinal(cycleStart) + 32 > MaxOrdinal || !IsCInt(anchor) then OutOfRange
                                   else InvalidDate)
    ensures r.Ok? ==> IsCycleStart(anchor, r.value)
  {
    match AddDays(cycleStart, 32)
    case Err(e) => Err(e)
    case Ok(nextMonthDate) =>
      OrdinalRange(nextMonthDate);
      assert !(nextMonthDate.year == MinYear && nextMonthDate.month == 1) by {
        if nextMonthDate.year == MinYear && nextMonthDate.month == 1 {
          OrdinalRange(cycleStart);
        }
      }
      CycleStart(anchor, nextMonthDate)
  }

  // ---------------------------------------------------------------------------
  // Properties of the resolver

  /** At most one cycle start per calendar month. */
  lemma OneCycleStartPerMonth(anchor: int, a: Date, b: Date)
    requires IsCycleStart(anchor, a) && IsCycleStart(anchor, b)
    requires a.year == b.year && a.month == b.month
    ensures a == b
  {
  }

  /** For a positive anchor, every month of years 1..9999 has its cycle start. */
  lemma CycleStartInEveryMonth(anchor: int, y: int, m: int)
    requires anchor >= 1 && MinYear <= y <= MaxYear && 1 <= m <= 12
    ensures IsCycleStart(anchor, Date(y, m, ActualDay(y, m, anchor)))
  {
  }

  /** Date order agrees with month order on dates of different months. */
  lemma BeforeByMonth(a: Date, b: Date)
    requires IsValid(a) && IsValid(b)
    ensures MonthIndex(a) < MonthIndex(b) ==> Before(a, b)
    ensures Before(a, b) ==> MonthIndex(a) <= MonthIndex(b)
  {
  }

  /**
    The resolver returns the latest cycle start that is not after `today`:
    whenever some cycle start `s` is on or before `today`, the resolver
    succeeds and its result is on or after `s`.
  */
  lemma CycleStartIsLatest(anchor: int, today: Date, s: Date)
    requires IsValid(today) && IsCycleStart(anchor, s)
    requires !Before(today, s)
    ensures CycleStart(anchor, today).Ok?
    ensures !Before(CycleStart(anchor, today).value, s)
  {
    var r := CycleStart(anchor, today);
    assert r.Ok? by {
      BeforeByMonth(s, today);
      BeforeByMonth(today, s);
    }
    var target := ActualDay(today.year, today.month, anchor);
    BeforeByMonth(s, r.value);
    BeforeByMonth(r.value, s);
    BeforeByMonth(today, s);
    if today.day < target {
      // s cannot be in today's month: there it would fall after today
      assert MonthIndex(s) < MonthIndex(today);
      assert MonthIndex(r.value) == MonthIndex(today) - 1;
    }
  }

  /** A cycle start, resolved as the reference date, resolves to itself; nothing else does. */
  lemma CycleStartFixedPoints(anchor: int, d: Date)
    requires IsValid(d)
    ensures CycleStart(anchor, d) == Ok(d) <==> IsCycleStart(anchor, d)
  {
  }

  /** Idempotence: resolving a resolved cycle start again returns it unchanged. */
  lemma CycleStartIdempotent(anchor: int, today: Date)
    requires IsValid(today) && CycleStart(anchor, today).Ok?
    ensures CycleStart(anchor, CycleStart(anchor, today).value) == CycleStart(anchor, today)
  {
    CycleStartFixedPoints(anchor, CycleStart(anchor, today).value);
  }

  /** A later reference date never resolves to an earlier cycle start. */
  lemma CycleStartMonotone(anchor: int, today1: Date, today2: Date)
    requires IsValid(today1) && IsValid(today2) && !Before(today2, today1)
    requires CycleStart(anchor, today1).Ok?
    ensures CycleStart(anchor, today2).Ok?
    ensures !Before(CycleStart(anchor, today2).value, CycleStart(anchor, today1).value)
  {
    var s := CycleStart(anchor, today1).value;
    BeforeByMonth(today2, s);
    BeforeByMonth(s, today1);
    CycleStartIsLatest(anchor, today2, s);
  }

  // ---------------------------------------------------------------------------
  // The next cycle, 32 days on

  /** On or after this month's target day, the cycle began this month. */
  lemma ResolveOnOrAfterTarget(anchor: int, d: Date)
    requires IsValid(d) && anchor >= 1
    requires d.day >= ActualDay(d.year, d.month, anchor)
    ensures CycleStart(anchor, d) == Ok(Date(d.year, d.month, ActualDay(d.year, d.month, anchor)))
  {
  }

  /** Before this month's target day, the cycle began on the previous month's target day. */
  lemma ResolveBeforeTarget(anchor: int, d: Date)
    requires IsValid(d) && !(d.year == MinYear && d.month == 1)
    requires d.day < ActualDay(d.year, d.month, anchor)
    ensures var (py, pm) := PrevMonth(d.year, d.month);
            CycleStart(anchor, d) == Ok(Date(py, pm, ActualDay(py, pm, anchor)))
  {
  }

  /** The first day of the month after `d`'s month, one ordinal after the last day of `d`'s month. */
  lemma FirstOfNextMonth(y: int, m: int)
    requires 1 <= m <= 12
    requires IsValid(Date(y, m, DaysInMonth(y, m)))
    requires Ordinal(Date(y, m, DaysInMonth(y, m))) < MaxOrdinal
    ensures IsValid(Date(NextMonth(y, m).0, NextMonth(y, m).1, 1))
    ensures Ordinal(Date(NextMonth(y, m).0, NextMonth(y, m).1, 1))
         == Ordinal(Date(y, m, DaysInMonth(y, m))) + 1
  {
    var last := Date(y, m, DaysInMonth(y, m));
    var next := NextDay(last);
    assert next.Ok?;
    assert next.value == Date(NextMonth(y, m).0, NextMonth(y, m).1, 1);
  }

  /** `d + n days` is the valid date whose ordinal is `n` more. */
  lemma AddDaysReaches(d: Date, n: nat, c: Date)
    requires IsValid(d) && IsValid(c) && Ordinal(c) == Ordinal(d) + n
    ensures AddDays(d, n) == Ok(c)
  {
    OrdinalRange(c);
    OrdinalInjective(AddDays(d, n).value, c);
  }

  /** `d + n days` when that lands in the month beginning on `first`, `first` being on or after `d`. */
  lemma LandingInMonth(d: Date, first: Date, n: nat)
    requires IsValid(d) && IsValid(first) && first.day == 1
    requires Ordinal(d) <= Ordinal(first) <= Ordinal(d) + n
    requires Ordinal(d) + n - Ordinal(first) < DaysInMonth(first.year, first.month)
    ensures AddDays(d, n) == Ok(Date(first.year, first.month, Ordinal(d) + n - Ordinal(first) + 1))
  {
    var c := Date(first.year, first.month, Ordinal(d) + n - Ordinal(first) + 1);
    assert Ordinal(c) == Ordinal(d) + n;
    AddDaysReaches(d, n, c);
  }

  /** Where `s + 32 days` lands when the month after `s`'s month is long enough to hold it. */
  lemma LandingInNextMonth(s: Date)
    requires IsValid(s) && Ordinal(s) + 32 <= MaxOrdinal
    requires s.day + 32 - DaysInMonth(s.year, s.month)
             <= DaysInMonth(NextMonth(s.year, s.month).0, NextMonth(s.year, s.month).1)
    ensures AddDays(s, 32)
         == Ok(Date(NextMonth(s.year, s.month).0, NextMonth(s.year, s.month).1,
                    s.day + 32 - DaysInMonth(s.year, s.month)))
  {
    var len := DaysInMonth(s.year, s.month);
    var last := Date(s.year, s.month, len);
    assert Ordinal(last) == Ordinal(s) + len - s.day;
    OrdinalRange(last);
    FirstOfNextMonth(s.year, s.month);
    LandingInMonth(s, Date(NextMonth(s.year, s.month).0, NextMonth(s.year, s.month).1, 1), 32);
  }

  /** Where `s + 32 days` lands when it runs past the end of the following month. */
  lemma LandingInMonthAfterNext(s: Date)
    requires IsValid(s) && Ordinal(s) + 32 <= MaxOrdinal
    requires s.day + 32 - DaysInMonth(s.year, s.month)
             > DaysInMonth(NextMonth(s.year, s.month).0, NextMonth(s.year, s.month).1)
    ensures var next := NextMonth(s.year, s.month);
            var afterNext := NextMonth(next.0, next.1);
            AddDays(s, 32)
              == Ok(Date(afterNext.0, afterNext.1, s.day + 32 - DaysInMonth(s.year, s.month) - DaysInMonth(next.0, next.1)))
  {
    var len := DaysInMonth(s.year, s.month);
    var last := Date(s.year, s.month, len);
    assert Ordinal(last) == Ordinal(s) + len - s.day;
    OrdinalRange(last);
    FirstOfNextMonth(s.year, s.month);
    var (ny, nm) := NextMonth(s.year, s.month);
    var nextLen := DaysInMonth(ny, nm);
    var nextLast := Date(ny, nm, nextLen);
    assert Ordinal(nextLast) == Ordinal(Date(ny, nm, 1)) + nextLen - 1;
    OrdinalRange(nextLast);
    FirstOfNextMonth(ny, nm);
    var (ny2, nm2) := NextMonth(ny, nm);
    LandingInMonth(s, Date(ny2, nm2, 1), 32);
    var next := NextMonth(s.year, s.month);
    var afterNext := NextMonth(next.0, next.1);
    assert next == (ny, nm) && afterNext == (ny2, nm2);
  }

  /**
    For a cycle start `s`, resolving `s + 32 days` gives the cycle start of
    the calendar month right after `s`'s month, whatever the lengths of the
    two months: no month is skipped and none is repeated.
  */
  lemma NextCycleStartIsNextMonth(anchor: int, s: Date)
    requires IsCycleStart(anchor, s)
    requires Ordinal(s) + 32 <= MaxOrdinal
    ensures NextCycleStart(anchor, s).Ok?
    ensures var (ny, nm) := NextMonth(s.year, s.month);
            NextCycleStart(anchor, s).value == Date(ny, nm, ActualDay(ny, nm, anchor))
    ensures Before(s, NextCycleStart(anchor, s).value)
  {
    var len := DaysInMonth(s.year, s.month);
    var (ny, nm) := NextMonth(s.year, s.month);
    var nextLen := DaysInMonth(ny, nm);
    var e := AddDays(s, 32).value;
    assert NextCycleStart(anchor, s) == CycleStart(anchor, e);
    if s.day + 32 - len <= nextLen {
      LandingInNextMonth(s);
      ResolveOnOrAfterTarget(anchor, e);
    } else {
      LandingInMonthAfterNext(s);
      ResolveSpilledLanding(anchor, s, e);
    }
    BeforeByMonth(s, CycleStart(anchor, e).value);
  }

  /** The date two months on, early in its month, resolves back to the month after `s`'s. */
  lemma ResolveSpilledLanding(anchor: int, s: Date, e: Date)
    requires IsCycleStart(anchor, s) && IsValid(e)
    requires var (ny, nm) := NextMonth(s.year, s.month);
             var (ny2, nm2) := NextMonth(ny, nm);
             var k := s.day + 32 - DaysInMonth(s.year, s.month);
             k > DaysInMonth(ny, nm) && e == Date(ny2, nm2, k - DaysInMonth(ny, nm))
    ensures var (ny, nm) := NextMonth(s.year, s.month);
            CycleStart(anchor, e) == Ok(Date(ny, nm, ActualDay(ny, nm, anchor)))
  {
    var (ny, nm) := NextMonth(s.year, s.month);
    assert s.day >= 28 && anchor >= 28 && e.day <= 4;
    assert e.day < ActualDay(e.year, e.month, anchor);
    PrevOfNextMonth(ny, nm);
    assert !(e.year == MinYear && e.month == 1);
    ResolveBeforeTarget(anchor, e);
  }

  /**
    The statement window `[s, next)` of a cycle start `s` holds exactly the
    dates that the resolver maps to `s`: consecutive windows neither overlap
    nor leave gaps.
  */
  lemma StatementWindowIsCycle(anchor: int, s: Date, t: Date)
    requires IsCycleStart(anchor, s) && IsValid(t)
    requires NextCycleStart(anchor, s).Ok?
    ensures (!Before(t, s) && Before(t, NextCycleStart(anchor, s).value)) <==> CycleStart(anchor, t) == Ok(s)
  {
    var e := NextCycleStart(anchor, s).value;
    NextCycleStartIsNextMonth(anchor, s);
    if !Before(t, s) && Before(t, e) {
      CycleStartIsLatest(anchor, t, s);
      var r := CycleStart(anchor, t).value;
      // r is a cycle start between s and e; only s is
      BeforeByMonth(r, e);
      BeforeByMonth(t, r);
      BeforeByMonth(s, r);
      assert MonthIndex(e) == MonthIndex(s) + 1;
      assert MonthIndex(r) == MonthIndex(s);
      OneCycleStartPerMonth(anchor, r, s);
    }
    if CycleStart(anchor, t) == Ok(s) {
      if !Before(t, e) {
        CycleStartIsLatest(anchor, t, e);
      }
    }
  }
}
