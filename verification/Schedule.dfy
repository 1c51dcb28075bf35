/** When a strategy evaluates: quantize/engine/schedule.py. */
module Schedule {
  import opened Market

  /** Weekly and monthly schedules differ only in the key that groups dates into periods. */
  datatype Schedule = Daily | Periodic(period: Date -> int)

  predicate LastOfPeriod(period: Date -> int, dates: seq<Date>, i: nat)
    requires i < |dates|
  {
    i + 1 == |dates| || period(dates[i + 1]) != period(dates[i])
  }

  function PeriodEnds(period: Date -> int, dates: seq<Date>, n: nat): seq<Date>
    requires n <= |dates|
  {
    if n == 0 then []
    else PeriodEnds(period, dates, n - 1) + if LastOfPeriod(period, dates, n - 1) then [dates[n - 1]] else []
  }

  /** The session dates on which the schedule fires. */
  function Firing(schedule: Schedule, dates: seq<Date>): seq<Date> {
    match schedule
    case Daily => dates
    case Periodic(period) => PeriodEnds(period, dates, |dates|)
  }

  /** `scheduled_sessions`. */
  method ScheduledSessions(schedule: Schedule, dates: seq<Date>) returns (firing: seq<Date>)
    ensures firing == Firing(schedule, dates)
  {
    if schedule.Daily? {
      return dates;
    }
    firing := [];
    for i := 0 to |dates|
      invariant firing == PeriodEnds(schedule.period, dates, i)
    {
      if i + 1 == |dates| || schedule.period(dates[i + 1]) != schedule.period(dates[i]) {
        firing := firing + [dates[i]];
      }
    }
  }

  ghost predicate AscendingDays(dates: seq<Date>) {
    forall i, j :: 0 <= i < j < |dates| ==> dates[i] < dates[j]
  }

  /** Periods follow one another, as ISO weeks and months do. */
  ghost predicate MonotonePeriod(period: Date -> int) {
    forall a, b :: a <= b ==> period(a) <= period(b)
  }

  lemma {:induction false} PeriodEndsMember(period: Date -> int, dates: seq<Date>, n: nat, day: Date)
    requires n <= |dates|
    ensures day in PeriodEnds(period, dates, n) <==> exists i :: 0 <= i < n && dates[i] == day && LastOfPeriod(period, dates, i)
  {
    if n > 0 {
      PeriodEndsMember(period, dates, n - 1, day);
    }
  }

  /** Comparing each session with the next one is enough: the schedule fires on a session exactly when no later session of
      the calendar lies in the same period. */
  lemma FiresOnLastOfPeriod(period: Date -> int, dates: seq<Date>, day: Date)
    requires AscendingDays(dates) && MonotonePeriod(period)
    ensures day in Firing(Periodic(period), dates)
      <==> day in dates && forall later :: later in dates && later > day ==> period(later) != period(day)
  {
    PeriodEndsMember(period, dates, |dates|, day);
    if day in dates {
      var i :| 0 <= i < |dates| && dates[i] == day;
      if LastOfPeriod(period, dates, i) {
        forall later | later in dates && later > day ensures period(later) != period(day) {
          var j :| 0 <= j < |dates| && dates[j] == later;
          assert i < j;
          assert period(day) <= period(dates[i + 1]) <= period(later);
        }
      } else {
        var next := dates[i + 1];
        assert next in dates && next > day;
      }
    }
  }
}
