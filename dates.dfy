/**
 * Dates: leap years, the length of a month, month arithmetic, interval
 * intersection and the iterator over a range of days. A day handled by the
 * iterator is an integer day number, DateTime's `+ 1` being the next day.
 */
module Dates {
  import opened Py

  // Year ------------------------------------------------------------------

  /** Year.isLeap: the Gregorian rule. */
  predicate IsLeap(year: int)
  {
    year % 400 == 0 || (year % 4 == 0 && year % 100 != 0)
  }

  /** Year.getDays */
  function GetDays(year: int): (r: int)
    ensures r == 365 || r == 366
    ensures r == 366 <==> IsLeap(year)
  {
    if IsLeap(year) then 366 else 365
  }

  /** The rule repeats every 400 years. */
  lemma {:induction false} LeapCycle(year: int)
    ensures IsLeap(year + 400) == IsLeap(year)
  {
    DivModUnique(year + 400, 400, year / 400 + 1, year % 400);
    DivModUnique(year + 400, 4, year / 4 + 100, year % 4);
    DivModUnique(year + 400, 100, year / 100 + 4, year % 100);
  }

  /** Every fourth year is a leap year, except the centuries not divisible by 400. */
  lemma {:induction false} LeapCenturies(year: int)
    ensures year % 4 != 0 ==> !IsLeap(year)
    ensures year % 100 == 0 ==> (IsLeap(year) <==> year % 400 == 0)
  {
    if year % 400 == 0 {
      DivModUnique(year, 4, (year / 400) * 100, 0);
    }
  }

  // Months ----------------------------------------------------------------

  /** The number of days DateTime accepts in a month (1..12) of a year. */
  function DaysInMonth(year: int, month: int): (r: int)
    ensures 28 <= r <= 31
    ensures month == 2 ==> (r == 29 <==> IsLeap(year))
  {
    if month == 2 then (if IsLeap(year) then 29 else 28)
    else if month == 4 || month == 6 || month == 9 || month == 11 then 30
    else 31
  }

  /** The days of months 1..n of a year. */
  function DaysUpTo(year: int, n: int): int
    decreases n
  {
    if n <= 0 then 0 else DaysUpTo(year, n - 1) + DaysInMonth(year, n)
  }

  /** The twelve months make up the year. */
  lemma {:induction false} MonthsMakeYear(year: int)
    ensures DaysUpTo(year, 12) == GetDays(year)
  {
    assert DaysUpTo(year, 2) == 31 + DaysInMonth(year, 2);
    assert DaysUpTo(year, 7) == DaysUpTo(year, 2) + 153;
    assert DaysUpTo(year, 12) == DaysUpTo(year, 7) + 153;
  }

  /** Whether DateTime builds the date "year/month/day". */
  predicate DateExists(year: int, month: int, day: int)
  {
    1 <= month <= 12 && 1 <= day <= DaysInMonth(year, month)
  }

  /** getLastDayOfMonth: tries day 31, then 30, ... until DateTime accepts the date. */
  method GetLastDayOfMonth(year: int, month: int) returns (day: int)
    requires 1 <= month <= 12
    ensures day == DaysInMonth(year, month)
    ensures DateExists(year, month, day) && !DateExists(year, month, day + 1)
  {
    day := 31;
    var found := DateExists(year, month, day);
    while !found
      invariant DaysInMonth(year, month) <= day <= 31
      invariant found <==> DateExists(year, month, day)
      decreases day
    {
      day := day - 1;
      found := DateExists(year, month, day);
    }
  }

  /** A day of a calendar: year, month and day. */
  datatype Day = Day(year: int, month: int, day: int)

  /** The month a date is in, counted from year 0. */
  function MonthIndex(year: int, month: int): int { year * 12 + month - 1 }

  /** getSiblingMonth: the same day one month later (or earlier), the last day of that month when it is shorter. */
  function GetSiblingMonth(d: Day, next: bool): (r: Day)
    requires DateExists(d.year, d.month, d.day)
    ensures DateExists(r.year, r.month, r.day)
    ensures MonthIndex(r.year, r.month) == MonthIndex(d.year, d.month) + (if next then 1 else -1)
    ensures r.day == Min(d.day, DaysInMonth(r.year, r.month))
  {
    var (year, month) :=
      if next then (if d.month == 12 then (d.year + 1, 1) else (d.year, d.month + 1))
      else (if d.month == 1 then (d.year - 1, 12) else (d.year, d.month - 1));
    if DateExists(year, month, d.day) then Day(year, month, d.day)
    else Day(year, month, DaysInMonth(year, month))
  }

  function Min(a: int, b: int): int { if a <= b then a else b }

  /** Going one month forward then one back returns to the month, and to the day when both months have it. */
  lemma {:induction false} SiblingMonthRoundTrip(d: Day)
    requires DateExists(d.year, d.month, d.day)
    ensures var there := GetSiblingMonth(d, true);
            var back := GetSiblingMonth(there, false);
            back.year == d.year && back.month == d.month
            && (d.day <= DaysInMonth(there.year, there.month) ==> back == d)
  {
    var there := GetSiblingMonth(d, true);
    var back := GetSiblingMonth(there, false);
    assert MonthIndex(back.year, back.month) == MonthIndex(d.year, d.month);
    assert back.year * 12 + back.month == d.year * 12 + d.month;
  }

  // Intervals ---------------------------------------------------------------

  /** periodsIntersect on instants (milliseconds); an end of None is unbounded. */
  predicate PeriodsIntersect(start1: int, end1: Option<int>, start2: int, end2: Option<int>)
  {
    !((end2.Some? && start1 > end2.value) || (end1.Some? && start2 > end1.value))
  }

  /** An instant within [start, end], end None meaning no upper bound. */
  predicate Within(t: int, start: int, end: Option<int>)
  {
    start <= t && (end.None? || t <= end.value)
  }

  /** Two (non-empty) periods intersect exactly when some instant lies in both. */
  lemma {:induction false} PeriodsIntersectIff(start1: int, end1: Option<int>, start2: int, end2: Option<int>)
    requires end1.None? || start1 <= end1.value
    requires end2.None? || start2 <= end2.value
    ensures PeriodsIntersect(start1, end1, start2, end2)
            <==> exists t :: Within(t, start1, end1) && Within(t, start2, end2)
  {
    if PeriodsIntersect(start1, end1, start2, end2) {
      var t := if start1 <= start2 then start2 else start1;
      assert Within(t, start1, end1) && Within(t, start2, end2);
    }
  }

  // DayIterator -------------------------------------------------------------

  /** The days a forward iteration yields from `current` to `end`: `current` at least, and one more each step up to `end`. */
  function Forward(current: int, end: int): (r: seq<int>)
    ensures |r| > 0 && r[0] == current
    decreases end - current
  {
    if current >= end then [current] else [current] + Forward(current + 1, end)
  }

  /** The days a backward iteration yields from `current` down to `start`. */
  function Backward(current: int, start: int): (r: seq<int>)
    ensures |r| > 0 && r[0] == current
    decreases current - start
  {
    if current <= start then [current] else [current] + Backward(current - 1, start)
  }

  /** From start to end, each day once and in ascending order. */
  lemma {:induction false} ForwardIsRange(current: int, end: int)
    requires current <= end
    ensures |Forward(current, end)| == end - current + 1
    ensures forall k | 0 <= k < end - current + 1 :: Forward(current, end)[k] == current + k
    decreases end - current
  {
    if current < end {
      ForwardIsRange(current + 1, end);
    }
  }

  /** From end to start, each day once and in descending order. */
  lemma {:induction false} BackwardIsRange(current: int, start: int)
    requires start <= current
    ensures |Backward(current, start)| == current - start + 1
    ensures forall k | 0 <= k < current - start + 1 :: Backward(current, start)[k] == current - k
    decreases current - start
  {
    if start < current {
      BackwardIsRange(current - 1, start);
    }
  }

  class DayIterator {
    const start: int
    const end: int
    const back: bool
    var finished: bool
    var current: int

    /** The days still to come. */
    function Remaining(): seq<int>
      reads this
    {
      if finished then [] else if back then Backward(current, start) else Forward(current, end)
    }

    constructor (startDay: int, endDay: int, back: bool)
      ensures start == startDay && end == endDay && this.back == back
      ensures Remaining() == if back then Backward(endDay, startDay) else Forward(startDay, endDay)
    {
      start := startDay;
      end := endDay;
      this.back := back;
      finished := false;
      current := if back then endDay else startDay;
    }

    /** __next__: None stands for StopIteration. */
    method Next() returns (r: Option<int>)
      modifies this
      ensures old(Remaining()) == [] ==> r == None && Remaining() == []
      ensures old(Remaining()) != [] ==> r == Some(old(Remaining())[0]) && Remaining() == old(Remaining())[1..]
    {
      if finished {
        return None;
      }
      r := Some(current);
      if !back {
        if current >= end {
          finished := true;
        } else {
          current := current + 1;
        }
      } else {
        if current <= start {
          finished := true;
        } else {
          current := current - 1;
        }
      }
    }

    /** Iterating to the end: the remaining days, in order. */
    method Rest() returns (r: seq<int>)
      modifies this
      ensures r == old(Remaining()) && Remaining() == []
    {
      ghost var all := Remaining();
      r := [];
      while true
        invariant r + Remaining() == all
        decreases |Remaining()|
      {
        ghost var before := Remaining();
        var next := Next();
        if next.None? {
          assert r == all;
          return;
        }
        assert before == [next.value] + Remaining();
        r := r + [next.value];
        assert r + Remaining() == all;
      }
    }
  }

  /** A fresh forward iterator over [startDay, endDay] yields each day once, ascending. */
  method IterateDays(startDay: int, endDay: int, back: bool) returns (days: seq<int>)
    requires startDay <= endDay
    ensures |days| == endDay - startDay + 1
    ensures forall k | 0 <= k < |days| :: days[k] == if back then endDay - k else startDay + k
  {
    var it := new DayIterator(startDay, endDay, back);
    days := it.Rest();
    if back {
      BackwardIsRange(endDay, startDay);
    } else {
      ForwardIsRange(startDay, endDay);
    }
  }
}
