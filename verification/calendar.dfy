/** Dates and times as the filters see them. A date is a day number counted
    from 1970-01-01, which was a Thursday; a time is a count of nanoseconds
    from midnight at the start of that day. Weeks start on Monday, the Rails
    default for `beginning_of_week`. */
module Calendar {

  type Date = int

  const NanosPerDay: int := 86_400_000_000_000

  /** Day of the week, 0 for Monday through 6 for Sunday. */
  function Weekday(d: Date): (w: int)
    ensures 0 <= w < 7
  {
    (d + 3) % 7
  }

  /** `Date#beginning_of_week`: the Monday on or before `d`. */
  function BeginningOfWeek(d: Date): (r: Date)
    ensures r <= d < r + 7
    ensures Weekday(r) == 0
  {
    var r := d - Weekday(d);
    assert (d + 3) == 7 * ((d + 3) / 7) + (d + 3) % 7;
    assert r + 3 == 7 * ((d + 3) / 7);
    r
  }

  /** `Date#end_of_week`: the Sunday on or after `d`. */
  function EndOfWeek(d: Date): (r: Date)
    ensures d <= r < d + 7
    ensures Weekday(r) == 6
  {
    var b := BeginningOfWeek(d);
    assert (b + 3) % 7 == 0;
    assert (b + 9) % 7 == 6 by {
      assert b + 9 == (b + 3) + 6;
    }
    b + 6
  }

  /** Two Mondays less than a week apart are the same day. */
  lemma MondaysAWeekApart(a: Date, b: Date)
    requires Weekday(a) == 0 && Weekday(b) == 0
    requires a <= b < a + 7
    ensures a == b
  {
    assert a + 3 == 7 * ((a + 3) / 7);
    assert b + 3 == 7 * ((b + 3) / 7);
  }

  /** Every day of a week has the same beginning of week. */
  lemma SameWeek(d: Date, e: Date)
    requires BeginningOfWeek(d) <= e <= EndOfWeek(d)
    ensures BeginningOfWeek(e) == BeginningOfWeek(d)
    ensures EndOfWeek(e) == EndOfWeek(d)
  {
    var a, b := BeginningOfWeek(d), BeginningOfWeek(e);
    if a <= b {
      MondaysAWeekApart(a, b);
    } else {
      MondaysAWeekApart(b, a);
    }
  }

  /** The week of the day seven days earlier is the previous week. */
  lemma WeekBefore(d: Date)
    ensures BeginningOfWeek(d - 7) == BeginningOfWeek(d) - 7
    ensures EndOfWeek(d - 7) == EndOfWeek(d) - 7
  {
    var a, b := BeginningOfWeek(d - 7), BeginningOfWeek(d) - 7;
    assert Weekday(b) == 0 by {
      assert (b + 3) == (BeginningOfWeek(d) + 3) - 7;
    }
    if a <= b {
      MondaysAWeekApart(a, b);
    } else {
      MondaysAWeekApart(b, a);
    }
  }

  /** `to_time.beginning_of_day`: the first instant of day `d`. */
  function BeginningOfDay(d: Date): int {
    d * NanosPerDay
  }

  /** `to_time.end_of_day`: the last instant of day `d`. */
  function EndOfDay(d: Date): int {
    (d + 1) * NanosPerDay - 1
  }

  /** The day an instant falls on. */
  function DayOf(t: int): Date {
    t / NanosPerDay
  }

  /** An instant is at or after the beginning of day `d` exactly when it
      falls on day `d` or later. */
  lemma AfterBeginningOfDay(d: Date, t: int)
    ensures BeginningOfDay(d) <= t <==> d <= DayOf(t)
  {
    var q := t / NanosPerDay;
    assert t == q * NanosPerDay + t % NanosPerDay;
  }

  /** An instant is at or before the end of day `d` exactly when it falls on
      day `d` or earlier. */
  lemma BeforeEndOfDay(d: Date, t: int)
    ensures t <= EndOfDay(d) <==> DayOf(t) <= d
  {
    var q := t / NanosPerDay;
    assert t == q * NanosPerDay + t % NanosPerDay;
  }

  /** Widening a range of days to whole days: the instants from the beginning
      of day `a` to the end of day `b` are those falling on a day from `a` to
      `b`. */
  lemma WholeDays(a: Date, b: Date, t: int)
    ensures BeginningOfDay(a) <= t <= EndOfDay(b) <==> a <= DayOf(t) <= b
  {
    AfterBeginningOfDay(a, t);
    BeforeEndOfDay(b, t);
  }
}
