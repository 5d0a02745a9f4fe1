/** Business-day arithmetic (src/recon/calendar.py) on proleptic day numbers, day 1 being a Monday. */
module BusinessCalendar {
  import opened Ledger

  const SATURDAY := 5

  datatype Calendar = Calendar(holidays: set<int>) {
    predicate IsBusinessDay(day: int) {
      Weekday(day) < SATURDAY && day !in holidays
    }

    /** The business days after `from` up to and including `until`. */
    function DaysIn(from: int, until: int): nat
      decreases until - from
    {
      if until <= from then 0 else DaysIn(from, until - 1) + (if IsBusinessDay(until) then 1 else 0)
    }

    /** business_days_between. */
    method Between(start: int, end: int) returns (count: nat)
      ensures count == if end < start then DaysIn(end, start) else DaysIn(start, end)
    {
      var from, until := start, end;
      if until < from {
        from, until := until, from;
      }
      count := 0;
      var day := from;
      while day < until
        invariant from <= day <= until && count == DaysIn(from, day)
      {
        day := day + 1;
        if IsBusinessDay(day) {
          count := count + 1;
        }
      }
    }

    /** add_business_days; None for a negative number of days. The loop ends because a business day
        lies ahead of any day, whatever the holidays are. */
    method Add(start: int, days: int) returns (r: Option<int>)
      ensures r == None <==> days < 0
      ensures r.Some? ==>
                && r.value >= start && DaysIn(start, r.value) == days
                && forall d: int :: start <= d < r.value ==> DaysIn(start, d) < days
    {
      if days < 0 {
        return None;
      }
      var day, remaining := start, days;
      ghost var next := LaterBusinessDay(day);
      while remaining != 0
        invariant 0 <= remaining <= days && start <= day
        invariant DaysIn(start, day) == days - remaining
        invariant day < next && IsBusinessDay(next)
        invariant remaining < days ==> forall d: int :: start <= d < day ==> DaysIn(start, d) <= days - remaining
        invariant remaining == 0 ==> forall d: int :: start <= d < day ==> DaysIn(start, d) < days
        invariant remaining == days ==> forall d: int :: start <= d < day ==> DaysIn(start, d) == 0
        decreases remaining, next - day
      {
        EarlierHasFewer(start, day);
        day := day + 1;
        if IsBusinessDay(day) {
          remaining := remaining - 1;
          next := LaterBusinessDay(day);
        }
      }
      return Some(day);
    }

    /** A later day never has fewer business days behind it. */
    lemma {:induction false} EarlierHasFewer(from: int, until: int)
      ensures forall d: int :: d <= until ==> DaysIn(from, d) <= DaysIn(from, until)
      decreases until - from
    {
      if from < until {
        EarlierHasFewer(from, until - 1);
      } else {
        forall d: int | d <= until ensures DaysIn(from, d) <= DaysIn(from, until) {
        }
      }
    }

    /** Every finite set of holidays leaves a business day ahead. */
    lemma LaterBusinessDay(day: int) returns (next: int)
      ensures next > day && IsBusinessDay(next)
    {
      var last := LastHoliday(holidays, day);
      next := last + 1;
      if Weekday(next) == 5 {
        next := next + 2;
      } else if Weekday(next) == 6 {
        next := next + 1;
      }
    }

    /** Day 1 is a Monday: a business day is one of the first five of its week and not a holiday. */
    lemma BusinessDayMeans(day: int)
      ensures IsBusinessDay(day) <==> 1 <= day % 7 <= 5 && day !in holidays
    {
    }

    /** Any seven days in a row without a holiday have five business days. */
    lemma SevenDaysHaveFive(day: int)
      requires forall d: int :: day < d <= day + 7 ==> d !in holidays
      ensures DaysIn(day, day + 7) == 5
    {
      hide *;
      NoDays(day);
      OneMoreDay(day, 0);
      OneMoreDay(day, 1);
      OneMoreDay(day, 2);
      OneMoreDay(day, 3);
      OneMoreDay(day, 4);
      OneMoreDay(day, 5);
      OneMoreDay(day, 6);
      FiveOfSeven(day);
    }

    lemma NoDays(day: int)
      ensures DaysIn(day, day) == 0
    {
    }

    lemma OneMoreDay(day: int, k: nat)
      ensures DaysIn(day, day + k + 1)
              == DaysIn(day, day + k) + (if day + k + 1 in holidays then 0 else Working(day + k + 1))
    {
      BusinessDayMeans(day + k + 1);
    }

    /** Going through an intermediate date adds up. */
    lemma {:induction false} Additive(a: int, b: int, c: int)
      requires a <= b <= c
      ensures DaysIn(a, c) == DaysIn(a, b) + DaysIn(b, c)
      decreases c - b
    {
      if b < c {
        Additive(a, b, c - 1);
      }
    }

    /** Adding the business days between two dates leads to the last business day not after the later
        one (or back to the earlier one): the result r is unique. */
    lemma AddUndoesBetween(start: int, end: int, r: int)
      requires start <= end && start <= r && DaysIn(start, r) == DaysIn(start, end)
      requires forall d: int :: start <= d < r ==> DaysIn(start, d) < DaysIn(start, end)
      ensures r <= end && (forall d: int :: r < d <= end ==> !IsBusinessDay(d))
      ensures r == end <==> end == start || IsBusinessDay(end)
    {
      assert r <= end;
      forall d: int | r < d <= end ensures !IsBusinessDay(d) {
        Additive(start, r, end);
        Additive(r, d - 1, end);
        Additive(d - 1, d, end);
        assert DaysIn(d - 1, d) == DaysIn(d - 1, d - 1) + (if IsBusinessDay(d) then 1 else 0);
      }
      if r == end && start < end {
        assert DaysIn(start, end) == DaysIn(start, end - 1) + (if IsBusinessDay(end) then 1 else 0);
      }
    }
  }

  function Working(day: int): nat {
    if 1 <= day % 7 <= 5 then 1 else 0
  }

  lemma FiveOfSeven(day: int)
    ensures Working(day + 1) + Working(day + 2) + Working(day + 3) + Working(day + 4) + Working(day + 5)
            + Working(day + 6) + Working(day + 7) == 5
  {
    ShiftedWeekday(day, 1);
    ShiftedWeekday(day, 2);
    ShiftedWeekday(day, 3);
    ShiftedWeekday(day, 4);
    ShiftedWeekday(day, 5);
    ShiftedWeekday(day, 6);
    ShiftedWeekday(day, 7);
  }

  lemma ShiftedWeekday(day: int, k: nat)
    requires k <= 7
    ensures (day + k) % 7 == if day % 7 + k < 7 then day % 7 + k else day % 7 + k - 7
  {
    assert day == 7 * (day / 7) + day % 7;
  }

  /** date.weekday: Monday is 0. */
  function Weekday(day: int): (w: nat)
    ensures w < 7
  {
    (day + 6) % 7
  }

  lemma {:induction false} LastHoliday(holidays: set<int>, day: int) returns (last: int)
    ensures last >= day && forall h :: h in holidays ==> h <= last
  {
    if h :| h in holidays {
      var rest := LastHoliday(holidays - {h}, day);
      last := if rest < h then h else rest;
      assert holidays == (holidays - {h}) + {h};
    } else {
      last := day;
    }
  }
}
