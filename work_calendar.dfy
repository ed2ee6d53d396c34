/**
 * WorkCalendar: the instant reached after adding N seconds of working time
 * to a start instant. Working time accrues only inside the daily window
 * [onDutyTime, offDutyTime] on dates outside a fixed holiday set.
 *
 * A LocalDate is an epoch day number (plusDays(1) is +1), a LocalTime a whole
 * number of seconds since midnight, and a LocalDateTime the pair of both.
 * The calendar's fields are final, so it is a datatype whose holiday set is
 * fixed at construction (the live holiday set handed out by
 * getHolidayCalendar is not modelled); the offset
 * computation, which reassigns its locals step by step, is a method proved
 * against the two-phase specification Offset = Normalize, then Stepping.
 */
module Calendar {
  import opened Base
  import CheckUtil

  const SecondsPerDay: int := 86400

  /** A LocalDate, as its epoch day number. */
  type Date = int

  /** A LocalTime, as whole seconds since midnight. */
  type TimeOfDay = t: int | 0 <= t < 86400

  /** A LocalDateTime. */
  datatype DateTime = DateTime(date: Date, time: TimeOfDay)

  // The messages of the IllegalArgumentExceptions raised by the calendar.
  const HolidaysNull: string := "假期不能为null"
  const OnDutyNull: string := "上班时间不能为null"
  const OffDutyNull: string := "下班时间不能为null"
  const OffDutyNotAfter: string := "下班时间不能提前于上班时间"
  const TimeNull: string := "时间不能为null"
  const NegativeOffset: string := "偏移工作时长为非负数"

  /** The instant as seconds since the epoch; LocalDateTime is ordered by it. */
  function EpochSeconds(t: DateTime): int
  {
    t.date * SecondsPerDay + t.time
  }

  /** Distinct instants have distinct epoch seconds, so EpochSeconds determines a DateTime. */
  lemma EpochSecondsInjective(a: DateTime, b: DateTime)
    requires EpochSeconds(a) == EpochSeconds(b)
    ensures a == b
  {
  }

  /**
   * One more factor of d: n * d == (n - 1) * d + d. The solver handles a
   * product of two variables poorly, so the day-stepping proofs count whole
   * days with FullDaysWork and use this step once to reach n * dayWorkSeconds.
   */
  lemma MultiplyStep(n: int, d: int)
    ensures n * d == (n - 1) * d + d
  {
  }

  /** LocalDateTime.plusSeconds: moves the instant by n seconds (n may be negative), carrying into the date. */
  function PlusSeconds(t: DateTime, n: int): (r: DateTime)
    ensures EpochSeconds(r) == EpochSeconds(t) + n
  {
    var total := t.time + n;
    DateTime(t.date + total / SecondsPerDay, total % SecondsPerDay)
  }

  /** An offset that stays inside the day only changes the time. */
  lemma PlusSecondsSameDay(t: DateTime, n: int)
    requires 0 <= t.time + n < SecondsPerDay
    ensures PlusSeconds(t, n) == DateTime(t.date, t.time + n)
  {
    EpochSecondsInjective(PlusSeconds(t, n), DateTime(t.date, t.time + n));
  }

  /** `intervalInSeconds` once both times are known to be non-null: Duration.between(pre, aft) in seconds. */
  function Interval(pre: TimeOfDay, aft: TimeOfDay): int
  {
    aft - pre
  }

  /**
   * `intervalInSeconds(pre, aft)`: the signed number of seconds that takes
   * `pre` to `aft`; a null argument raises an IllegalArgumentException.
   */
  function IntervalInSeconds(pre: Option<TimeOfDay>, aft: Option<TimeOfDay>): (r: Result<int>)
    ensures r.Failure? <==> pre.None? || aft.None?
    ensures r.Failure? ==> r.error == IllegalArgument(TimeNull)
    ensures r.Success? ==> pre.value + r.value == aft.value
  {
    if CheckUtil.CheckArgument(pre.Some?, TimeNull).Fail? then Failure(IllegalArgument(TimeNull))
    else if CheckUtil.CheckArgument(aft.Some?, TimeNull).Fail? then Failure(IllegalArgument(TimeNull))
    else Success(Interval(pre.value, aft.value))
  }

  /** The interval is negative exactly when `aft` precedes `pre`, and swapping the times negates it. */
  lemma IntervalSignAndAntisymmetry(pre: TimeOfDay, aft: TimeOfDay)
    ensures IntervalInSeconds(Some(pre), Some(aft)).value < 0 <==> aft < pre
    ensures IntervalInSeconds(Some(pre), Some(aft)).value == -IntervalInSeconds(Some(aft), Some(pre)).value
  {
  }

  /** Where the day-stepping phase starts: either the answer is already known, or stepping begins. */
  datatype Start =
    | Reached(at: DateTime)               // the same-day fast path returned
    | StepFrom(date: Date, budget: int)   // step days from `date` at onDutyTime with `budget` seconds left

  /** The calendar: a holiday set, the daily window and its cached length in seconds. */
  datatype WorkCalendar = WorkCalendar(
    holidayCalendar: set<Date>,
    onDutyTime: TimeOfDay,
    offDutyTime: TimeOfDay,
    dayWorkSeconds: int)
  {
    /** What construction guarantees: a non-empty window whose length is cached. */
    predicate Valid()
    {
      onDutyTime < offDutyTime && dayWorkSeconds == Interval(onDutyTime, offDutyTime)
    }

    /** `isHoliday`: set membership by date; a holiday is the first of the holidays still ahead of it. */
    predicate IsHoliday(date: Date)
      ensures IsHoliday(date) <==> date in HolidaysFrom(date)
    {
      date in holidayCalendar
    }

    /** The holidays on or after `d`; a finite set, so skipping holidays ends. */
    function HolidaysFrom(d: Date): set<Date>
    {
      set h | h in holidayCalendar && h >= d
    }

    lemma HolidaysFromShrinks(d: Date)
      requires IsHoliday(d)
      ensures |HolidaysFrom(d + 1)| < |HolidaysFrom(d)|
    {
      assert HolidaysFrom(d + 1) == HolidaysFrom(d) - {d};
    }

    /** The first date on or after `d` that is not a holiday. */
    function NextWorkday(d: Date): (r: Date)
      ensures r >= d && !IsHoliday(r)
      ensures forall x :: d <= x < r ==> IsHoliday(x)
      decreases |HolidaysFrom(d)|
    {
      if IsHoliday(d) then
        HolidaysFromShrinks(d);
        NextWorkday(d + 1)
      else
        d
    }

    /** The (n+1)-th date on or after `d` that is not a holiday. */
    function NthWorkday(d: Date, n: nat): (r: Date)
      ensures r >= d + n && !IsHoliday(r)
      decreases n
    {
      var w := NextWorkday(d);
      if n == 0 then w else NthWorkday(w + 1, n - 1)
    }

    /** The number of non-holiday dates in [d, e). */
    function Workdays(d: Date, e: Date): nat
      decreases e - d
    {
      if e <= d then 0 else (if IsHoliday(d) then 0 else 1) + Workdays(d + 1, e)
    }

    lemma {:induction false} WorkdaysSplit(d: Date, m: Date, e: Date)
      requires d <= m <= e
      ensures Workdays(d, e) == Workdays(d, m) + Workdays(m, e)
      decreases m - d
    {
      if d < m {
        WorkdaysSplit(d + 1, m, e);
      }
    }

    lemma {:induction false} WorkdaysNoneBefore(d: Date, e: Date)
      requires forall x :: d <= x < e ==> IsHoliday(x)
      ensures Workdays(d, e) == 0
      decreases e - d
    {
      if d < e {
        WorkdaysNoneBefore(d + 1, e);
      }
    }

    /** NthWorkday(d, n) is a workday with exactly n workdays between d and it: it is the (n+1)-th workday from d. */
    lemma {:induction false} NthWorkdayIsCounted(d: Date, n: nat)
      ensures !IsHoliday(NthWorkday(d, n))
      ensures Workdays(d, NthWorkday(d, n)) == n
      decreases n
    {
      var w := NextWorkday(d);
      WorkdaysNoneBefore(d, w);
      if n > 0 {
        var r := NthWorkday(w + 1, n - 1);
        NthWorkdayIsCounted(w + 1, n - 1);
        WorkdaysSplit(d, w, r);
        WorkdaysSplit(w, w + 1, r);
      }
    }

    /**
     * The normalisation of the start instant, in the source's priority order.
     * The inside-the-window-but-does-not-fit branch reduces the budget by the
     * full dayWorkSeconds, because onDutyTime has already replaced the start
     * time when the remaining interval is measured.
     */
    function Normalize(t: DateTime, workSeconds: int): (s: Start)
      requires Valid() && workSeconds >= 0
      ensures s.Reached? <==>
        onDutyTime <= t.time <= offDutyTime && !IsHoliday(t.date) && offDutyTime - t.time >= workSeconds
      ensures s.Reached? ==> s.at == DateTime(t.date, t.time + workSeconds)
      ensures s.StepFrom? ==> (s.date == t.date <==> t.time < onDutyTime)
      ensures s.StepFrom? ==> s.date == t.date || s.date == t.date + 1
      ensures s.StepFrom? ==>
        s.budget == if onDutyTime <= t.time <= offDutyTime && !IsHoliday(t.date)
                    then workSeconds - dayWorkSeconds else workSeconds
    {
      if t.time < onDutyTime then StepFrom(t.date, workSeconds)
      else if t.time > offDutyTime then StepFrom(t.date + 1, workSeconds)
      else if IsHoliday(t.date) then StepFrom(t.date + 1, workSeconds)
      else if Interval(t.time, offDutyTime) >= workSeconds then
        PlusSecondsSameDay(t, workSeconds);
        Reached(PlusSeconds(t, workSeconds))
      else StepFrom(t.date + 1, workSeconds - Interval(onDutyTime, offDutyTime))
    }

    /**
     * The day-stepping loop from (date, onDutyTime) with `budget` seconds
     * left. A budget that is already spent falls through to the original
     * instant moved by the budget.
     */
    function Stepping(t: DateTime, date: Date, budget: int): (r: DateTime)
      requires Valid()
      ensures budget <= 0 ==> EpochSeconds(r) == EpochSeconds(t) + budget
      ensures budget > 0 ==> r.date >= date && !IsHoliday(r.date) && onDutyTime < r.time <= offDutyTime
      decreases if budget > 0 then budget else 0
    {
      if budget <= 0 then PlusSeconds(t, budget)
      else
        var d := NextWorkday(date);
        if budget <= dayWorkSeconds then
          PlusSecondsSameDay(DateTime(d, onDutyTime), budget);
          PlusSeconds(DateTime(d, onDutyTime), budget)
        else Stepping(t, d + 1, budget - dayWorkSeconds)
    }

    /**
     * What `addWorkSecondsAt(t, workSeconds)` returns for a non-null t and a
     * non-negative offset. A zero offset returns the instant unchanged from
     * every start, by the fast path or by the fall-through; a positive one
     * always ends inside the window of a workday, after onDutyTime.
     */
    function Offset(t: DateTime, workSeconds: int): (r: DateTime)
      requires Valid() && workSeconds >= 0
      ensures workSeconds == 0 ==> r == t
      ensures workSeconds > 0 ==> !IsHoliday(r.date) && onDutyTime < r.time <= offDutyTime
    {
      match Normalize(t, workSeconds)
      case Reached(at) => at
      case StepFrom(date, budget) =>
        if budget <= 0 then
          PlusSecondsSameDay(t, budget);
          Stepping(t, date, budget)
        else Stepping(t, date, budget)
    }

    /**
     * The same-day fast path: inside the window (offDutyTime included) on a
     * workday, an offset that fits before offDutyTime is added on the same date.
     */
    lemma SameDayFastPath(t: DateTime, workSeconds: int)
      requires Valid() && onDutyTime <= t.time <= offDutyTime && !IsHoliday(t.date)
      requires 0 <= workSeconds <= offDutyTime - t.time
      ensures Offset(t, workSeconds) == DateTime(t.date, t.time + workSeconds)
      ensures Offset(t, workSeconds).time <= offDutyTime
    {
      PlusSecondsSameDay(t, workSeconds);
    }

    /** The whole working days a positive budget uses up before its last day: ceil(budget / dayWorkSeconds) - 1. */
    function FullDays(budget: int): (n: nat)
      requires Valid() && budget > 0
      ensures n * dayWorkSeconds < budget <= n * dayWorkSeconds + dayWorkSeconds
    {
      (budget - 1) / dayWorkSeconds
    }

    /** The last day of stepping: a budget of at most one day ends on the next workday. */
    lemma SteppingLastDay(t: DateTime, date: Date, budget: int)
      requires Valid() && 0 < budget <= dayWorkSeconds
      ensures Stepping(t, date, budget) == DateTime(NextWorkday(date), onDutyTime + budget)
    {
      PlusSecondsSameDay(DateTime(NextWorkday(date), onDutyTime), budget);
    }

    /** A budget of more than one day uses up the next workday whole and steps on from the day after. */
    lemma SteppingFullDay(t: DateTime, date: Date, budget: int)
      requires Valid() && budget > dayWorkSeconds
      ensures Stepping(t, date, budget) == Stepping(t, NextWorkday(date) + 1, budget - dayWorkSeconds)
    {
    }

    /**
     * The seconds that n whole working days hold: n * dayWorkSeconds counted
     * day by day (FullDaysWorkIsProduct), so that SteppingLands needs no
     * product of two variables.
     */
    function FullDaysWork(n: nat): nat
      requires Valid()
    {
      if n == 0 then 0 else FullDaysWork(n - 1) + dayWorkSeconds
    }

    lemma {:induction false} FullDaysWorkIsProduct(n: nat)
      requires Valid()
      ensures FullDaysWork(n) == n * dayWorkSeconds
    {
      if n > 0 {
        FullDaysWorkIsProduct(n - 1);
        MultiplyStep(n, dayWorkSeconds);
      }
    }

    /**
     * Day-stepping with n full days to use up lands on the (n+1)-th workday
     * from `date`, at onDutyTime plus what is left of the budget for that day.
     */
    lemma {:induction false} SteppingLands(t: DateTime, date: Date, budget: int, n: nat)
      requires Valid() && FullDaysWork(n) < budget <= FullDaysWork(n) + dayWorkSeconds
      ensures Stepping(t, date, budget) == DateTime(NthWorkday(date, n), onDutyTime + budget - FullDaysWork(n))
      decreases n
    {
      if n == 0 {
        SteppingLastDay(t, date, budget);
      } else {
        SteppingFullDay(t, date, budget);
        SteppingLands(t, NextWorkday(date) + 1, budget - dayWorkSeconds, n - 1);
      }
    }

    /**
     * From a normalised start (date, onDutyTime) with budget left, the result
     * lies on the k-th workday on or after that date, k = ceil(budget /
     * dayWorkSeconds), at onDutyTime + (budget - (k-1) * dayWorkSeconds):
     * never on a holiday, and inside (onDutyTime, offDutyTime].
     */
    lemma SteppingFromNormalisedStart(t: DateTime, workSeconds: int)
      requires Valid() && workSeconds >= 0
      requires Normalize(t, workSeconds).StepFrom? && Normalize(t, workSeconds).budget > 0
      ensures var s := Normalize(t, workSeconds);
        var n := FullDays(s.budget);
        && Offset(t, workSeconds) == DateTime(NthWorkday(s.date, n), onDutyTime + s.budget - n * dayWorkSeconds)
        && Workdays(s.date, Offset(t, workSeconds).date) == n
      ensures !IsHoliday(Offset(t, workSeconds).date)
      ensures onDutyTime < Offset(t, workSeconds).time <= offDutyTime
    {
      var s := Normalize(t, workSeconds);
      var n := FullDays(s.budget);
      FullDaysWorkIsProduct(n);
      SteppingLands(t, s.date, s.budget, n);
      NthWorkdayIsCounted(s.date, n);
    }

    /**
     * The inside-the-window-but-does-not-fit branch as written: the budget
     * drops by a whole day, and when the offset is at most a day the loop is
     * skipped and the original instant moves BACK by dayWorkSeconds - offset,
     * to a time after onDutyTime and no later than the start.
     */
    lemma PartialDayAsWritten(t: DateTime, workSeconds: int)
      requires Valid() && onDutyTime <= t.time <= offDutyTime && !IsHoliday(t.date)
      requires offDutyTime - t.time < workSeconds <= dayWorkSeconds
      ensures Normalize(t, workSeconds) == StepFrom(t.date + 1, workSeconds - dayWorkSeconds)
      ensures Offset(t, workSeconds) == DateTime(t.date, t.time - (dayWorkSeconds - workSeconds))
      ensures onDutyTime < Offset(t, workSeconds).time <= t.time
    {
      PlusSecondsSameDay(t, workSeconds - dayWorkSeconds);
    }

    /**
     * `addWorkSecondsAt`: rejects a null instant and a negative offset, then
     * normalises the start and steps over days as the source does.
     */
    method AddWorkSecondsAt(localDateTime: Option<DateTime>, workSeconds: int) returns (r: Result<DateTime>)
      requires Valid()
      ensures localDateTime.None? ==> r == Failure(IllegalArgument(TimeNull))
      ensures localDateTime.Some? && workSeconds < 0 ==> r == Failure(IllegalArgument(NegativeOffset))
      ensures localDateTime.Some? && workSeconds >= 0 ==> r == Success(Offset(localDateTime.value, workSeconds))
    {
      var timeGiven := CheckUtil.CheckArgument(localDateTime.Some?, TimeNull);
      if timeGiven.Fail? {
        return Failure(timeGiven.error);
      }
      var offsetNonNegative := CheckUtil.CheckArgument(workSeconds >= 0, NegativeOffset);
      if offsetNonNegative.Fail? {
        return Failure(offsetNonNegative.error);
      }
      var t := localDateTime.value;
      var startDate := t.date;
      var startTime := t.time;
      var remaining := workSeconds;

      if startTime < onDutyTime {
        startTime := onDutyTime;
      } else if startTime > offDutyTime {
        startTime := onDutyTime;
        startDate := startDate + 1;
      } else if IsHoliday(startDate) {
        startTime := onDutyTime;
        startDate := startDate + 1;
      } else if Interval(startTime, offDutyTime) >= remaining {
        return Success(PlusSeconds(t, remaining));
      } else {
        startTime := onDutyTime;
        startDate := startDate + 1;
        remaining := remaining - Interval(startTime, offDutyTime);
      }
      assert Normalize(t, workSeconds) == StepFrom(startDate, remaining);

      while remaining > 0
        invariant startTime == onDutyTime
        invariant Stepping(t, startDate, remaining) == Offset(t, workSeconds)
        decreases remaining
      {
        ghost var entered := startDate;
        while IsHoliday(startDate)
          invariant NextWorkday(startDate) == NextWorkday(entered)
          decreases |HolidaysFrom(startDate)|
        {
          HolidaysFromShrinks(startDate);
          startDate := startDate + 1;
        }
        if remaining <= dayWorkSeconds {
          return Success(PlusSeconds(DateTime(startDate, startTime), remaining));
        } else {
          startTime := onDutyTime;
          startDate := startDate + 1;
          remaining := remaining - dayWorkSeconds;
        }
      }
      return Success(PlusSeconds(t, remaining));
    }
  }

  /** The private constructor: copies the holiday list into a set and caches the window length. */
  function Create(holidays: seq<Date>, onDutyTime: TimeOfDay, offDutyTime: TimeOfDay): (c: WorkCalendar)
    ensures forall d :: c.IsHoliday(d) <==> d in holidays
    ensures c.onDutyTime == onDutyTime && c.offDutyTime == offDutyTime
    ensures c.dayWorkSeconds == offDutyTime - onDutyTime
    ensures c.Valid() <==> onDutyTime < offDutyTime
  {
    WorkCalendar((set d | d in holidays), onDutyTime, offDutyTime, Interval(onDutyTime, offDutyTime))
  }

  /**
   * `newInstance`: checks, in this order, that the holiday list, onDutyTime
   * and offDutyTime are non-null and that offDutyTime is strictly after
   * onDutyTime; the first failing check raises its IllegalArgumentException.
   */
  function NewInstance(holidays: Option<seq<Date>>, onDutyTime: Option<TimeOfDay>, offDutyTime: Option<TimeOfDay>)
    : (r: Result<WorkCalendar>)
    ensures holidays.None? ==> r == Failure(IllegalArgument(HolidaysNull))
    ensures holidays.Some? && onDutyTime.None? ==> r == Failure(IllegalArgument(OnDutyNull))
    ensures holidays.Some? && onDutyTime.Some? && offDutyTime.None? ==> r == Failure(IllegalArgument(OffDutyNull))
    ensures holidays.Some? && onDutyTime.Some? && offDutyTime.Some? && offDutyTime.value <= onDutyTime.value ==>
      r == Failure(IllegalArgument(OffDutyNotAfter))
    ensures r.Success? <==>
      holidays.Some? && onDutyTime.Some? && offDutyTime.Some? && onDutyTime.value < offDutyTime.value
    ensures r.Success? ==>
      && r.value.Valid()
      && r.value.onDutyTime == onDutyTime.value && r.value.offDutyTime == offDutyTime.value
      && r.value.dayWorkSeconds == offDutyTime.value - onDutyTime.value > 0
      && forall d :: r.value.IsHoliday(d) <==> d in holidays.value
  {
    var holidaysGiven := CheckUtil.CheckArgument(holidays.Some?, HolidaysNull);
    if holidaysGiven.Fail? then Failure(holidaysGiven.error) else
    var onDutyGiven := CheckUtil.CheckArgument(onDutyTime.Some?, OnDutyNull);
    if onDutyGiven.Fail? then Failure(onDutyGiven.error) else
    var offDutyGiven := CheckUtil.CheckArgument(offDutyTime.Some?, OffDutyNull);
    if offDutyGiven.Fail? then Failure(offDutyGiven.error) else
    var ordered := CheckUtil.CheckArgument(offDutyTime.value > onDutyTime.value, OffDutyNotAfter);
    if ordered.Fail? then Failure(ordered.error) else
    Success(Create(holidays.value, onDutyTime.value, offDutyTime.value))
  }

  /** Only the dates in the holiday list matter to the calendar: not their order, not duplicates. */
  lemma HolidayListOrderIrrelevant(h1: seq<Date>, h2: seq<Date>, onDutyTime: Option<TimeOfDay>, offDutyTime: Option<TimeOfDay>)
    requires forall d :: d in h1 <==> d in h2
    ensures NewInstance(Some(h1), onDutyTime, offDutyTime) == NewInstance(Some(h2), onDutyTime, offDutyTime)
  {
    var s1, s2 := set d | d in h1, set d | d in h2;
    assert forall d :: d in s1 <==> d in s2;
    assert s1 == s2;
  }

  /** The window of the class comment, 09:00 to 17:30 (30600 s), with 2021-12-25 and 2021-12-26 as holidays. */
  function ChristmasCalendar(): (c: WorkCalendar)
    ensures c.Valid() && c.dayWorkSeconds == 30600
    ensures c == NewInstance(Some([18986, 18987]), Some(32400), Some(63000)).value
  {
    WorkCalendar({18986, 18987}, 32400, 63000, 30600)
  }

  /** 2021-12-24 16:00 plus 7200 s of work gives 2021-12-24 09:30, earlier than the start. */
  lemma PartialDayExample()
    ensures ChristmasCalendar().Offset(DateTime(18985, 57600), 7200) == DateTime(18985, 34200)
  {
    ChristmasCalendar().PartialDayAsWritten(DateTime(18985, 57600), 7200);
  }

  /** 2021-12-24 18:00 plus 3600 s skips the two holidays: 2021-12-27 10:00. */
  lemma HolidaySkipExample()
    ensures ChristmasCalendar().Offset(DateTime(18985, 64800), 3600) == DateTime(18988, 36000)
  {
    var c := ChristmasCalendar();
    assert c.NextWorkday(18986) == 18988 by {
      assert c.NextWorkday(18988) == 18988;
      assert c.NextWorkday(18987) == c.NextWorkday(18988);
    }
    PlusSecondsSameDay(DateTime(18988, 32400), 3600);
  }

  /** Starting before onDutyTime costs nothing: 07:00 plus one hour is 10:00 on a workday with a 09:00 start. */
  lemma PreOpeningExample(c: WorkCalendar, date: Date)
    requires c.Valid() && c.onDutyTime == 32400 && c.dayWorkSeconds >= 3600 && !c.IsHoliday(date)
    ensures c.Offset(DateTime(date, 25200), 3600) == DateTime(date, 36000)
  {
    PlusSecondsSameDay(DateTime(date, 32400), 3600);
  }

  /**
   * The class comment says 2021-12-22 12:00 plus 43200 s (window 09:00 to
   * 17:30) is 2021-12-23 15:30; the code gives 2021-12-23 12:30 instead.
   */
  lemma DocExampleDiverges(c: WorkCalendar)
    requires c.Valid() && c.onDutyTime == 32400 && c.offDutyTime == 63000
    requires !c.IsHoliday(18983) && !c.IsHoliday(18984)
    ensures c.Offset(DateTime(18983, 43200), 43200) == DateTime(18984, 45000)
    ensures c.Offset(DateTime(18983, 43200), 43200) != DateTime(18984, 55800)
  {
    var t := DateTime(18983, 43200);
    assert c.Normalize(t, 43200) == StepFrom(18984, 12600);
    assert c.NextWorkday(18984) == 18984;
    PlusSecondsSameDay(DateTime(18984, 32400), 12600);
  }

  /** More working time can give an earlier instant: the offset is not monotone in the seconds added. */
  lemma OffsetNotMonotone()
    ensures var c := ChristmasCalendar();
      && c.Offset(DateTime(18985, 57600), 5400) == DateTime(18985, 63000)
      && c.Offset(DateTime(18985, 57600), 7200) == DateTime(18985, 34200)
      && EpochSeconds(c.Offset(DateTime(18985, 57600), 7200)) < EpochSeconds(c.Offset(DateTime(18985, 57600), 5400))
  {
    ChristmasCalendar().SameDayFastPath(DateTime(18985, 57600), 5400);
    PartialDayExample();
  }

  /**
   * Nor is it additive. With the 09:00 to 17:30 window on two consecutive
   * workdays, one full day from opening reaches 17:30, and an hour more from
   * there falls back to 10:00 the same day; a day and an hour in one call
   * reaches 10:00 the next day.
   */
  lemma OffsetNotAdditive(c: WorkCalendar, d: Date)
    requires c.Valid() && c.onDutyTime == 32400 && c.offDutyTime == 63000
    requires !c.IsHoliday(d) && !c.IsHoliday(d + 1)
    ensures c.Offset(DateTime(d, 32400), 30600) == DateTime(d, 63000)
    ensures c.Offset(DateTime(d, 63000), 3600) == DateTime(d, 36000)
    ensures c.Offset(DateTime(d, 32400), 34200) == DateTime(d + 1, 36000)
  {
    c.SameDayFastPath(DateTime(d, 32400), 30600);
    c.PartialDayAsWritten(DateTime(d, 63000), 3600);
    assert c.Normalize(DateTime(d, 32400), 34200) == StepFrom(d + 1, 3600);
    c.SteppingLastDay(DateTime(d, 32400), d + 1, 3600);
  }
}
