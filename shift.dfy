/**
 * The time arithmetic of one shift: its length with the midnight rollover,
 * its length in hours, and the count of night hours taken by stepping
 * through the shift one hour at a time.
 */
module Shift {
  import opened Clock

  /** The night window starts at 23:00 ... */
  const NightStart: Minute := 23 * MinutesPerHour
  /** ... and ends, on the next morning, at 06:00 (exclusive). */
  const NightEnd: Minute := 6 * MinutesPerHour

  /**
   * A time of day counts as night when it is at or after 23:00 or before
   * 06:00. The window is made of whole clock hours: 23 and 0 to 5.
   */
  predicate IsNightTime(t: Minute)
    ensures IsNightTime(t) <==> (t / MinutesPerHour == 23 || t / MinutesPerHour < 6)
  {
    t >= NightStart || t < NightEnd
  }

  /**
   * The length in minutes of a shift from `start` to `end`. An end at or
   * before the start lies on the next day, so a shift with equal start and
   * end lasts a whole day.
   */
  function ShiftLength(start: Minute, end: Minute): (len: int)
    ensures 1 <= len <= MinutesPerDay
    ensures ClockAt(start + len) == end
    ensures start + len >= MinutesPerDay <==> end <= start
    ensures len == MinutesPerDay <==> start == end
  {
    if end <= start then end + MinutesPerDay - start else end - start
  }

  /**
   * The rolled-over length is the only length from one minute to one day
   * that takes the clock from `start` to `end`.
   */
  lemma ShiftLengthUnique(start: Minute, end: Minute, len: int)
    requires 1 <= len <= MinutesPerDay && ClockAt(start + len) == end
    ensures len == ShiftLength(start, end)
  {
    if start + len >= MinutesPerDay {
      assert ClockAt(start + len) == start + len - MinutesPerDay;
    } else {
      assert ClockAt(start + len) == start + len;
    }
  }

  /** The length of a shift in hours, as a real number of hours. */
  function TotalHours(start: Minute, end: Minute): (h: real)
    ensures 0.0 < h <= 24.0
    ensures h * 60.0 == ShiftLength(start, end) as real
  {
    ShiftLength(start, end) as real / 60.0
  }

  /** The number of whole-hour steps `k` with `60 * k < len`: the ceiling of `len / 60`. */
  function StepCount(len: nat): (n: nat)
    ensures len <= MinutesPerDay ==> n <= HoursPerDay
    ensures len > 0 ==> n > 0
  {
    (len + MinutesPerHour - 1) / MinutesPerHour
  }

  /**
   * Number of night steps among the first `n` hour steps of a shift
   * starting at `start`; step `k` is read on the clock at `start + 60 * k`.
   */
  function NightSteps(start: Minute, n: nat): (c: nat)
    ensures c <= n
  {
    if n == 0 then 0
    else NightSteps(start, n - 1) + (if IsNightTime(ClockAt(start + MinutesPerHour * (n - 1))) then 1 else 0)
  }

  /** The night hours of a shift from `start` to `end`, as the hour-step loop counts them. */
  function NightHoursOf(start: Minute, end: Minute): (c: nat)
    ensures c == |NightStepSet(start, StepCount(ShiftLength(start, end)))|
    ensures c <= StepCount(ShiftLength(start, end)) <= HoursPerDay
  {
    NightStepsIsCardinality(start, StepCount(ShiftLength(start, end)));
    NightSteps(start, StepCount(ShiftLength(start, end)))
  }

  /**
   * Counts the night hours of a shift: starting at `start`, steps through
   * the shift one hour at a time while the step is before the (rolled over)
   * end, and counts each step whose time of day is in the night window.
   */
  method CountNightHours(start: Minute, end: Minute) returns (nightHours: nat)
    ensures nightHours == NightSteps(start, StepCount(ShiftLength(start, end)))
    ensures nightHours <= StepCount(ShiftLength(start, end)) <= HoursPerDay
  {
    var finish := start + ShiftLength(start, end);
    var hour := start;
    nightHours := 0;
    ghost var k: nat := 0;
    while hour < finish
      invariant hour == start + MinutesPerHour * k
      invariant k <= StepCount(finish - start)
      invariant nightHours == NightSteps(start, k)
      decreases finish - hour
    {
      StepBound(finish - start, k);
      if IsNightTime(ClockAt(hour)) {
        nightHours := nightHours + 1;
      }
      hour := hour + MinutesPerHour;
      k := k + 1;
    }
    StepBound(finish - start, k);
  }

  /** Step `k` of the loop is still inside a shift of `len` minutes exactly when `k` is below the step count. */
  lemma StepBound(len: nat, k: nat)
    ensures MinutesPerHour * k < len <==> k < StepCount(len)
  {
  }

  /** Reference definition: the set of hour steps that fall in the night window. */
  ghost function NightStepSet(start: Minute, n: nat): set<nat>
  {
    set k: nat | k < n && IsNightTime(ClockAt(start + MinutesPerHour * k))
  }

  /** The recursive count is the size of the set of night steps. */
  lemma {:induction false} NightStepsIsCardinality(start: Minute, n: nat)
    ensures NightSteps(start, n) == |NightStepSet(start, n)|
  {
    if n == 0 {
      assert NightStepSet(start, 0) == {};
    } else {
      NightStepsIsCardinality(start, n - 1);
      var prev := NightStepSet(start, n - 1);
      if IsNightTime(ClockAt(start + MinutesPerHour * (n - 1))) {
        assert NightStepSet(start, n) == prev + {n - 1};
        assert n - 1 !in prev;
      } else {
        assert NightStepSet(start, n) == prev;
      }
    }
  }

  /** Counting more steps never counts fewer night hours. */
  lemma {:induction false} NightStepsMonotone(start: Minute, m: nat, n: nat)
    requires m <= n
    ensures NightSteps(start, m) <= NightSteps(start, n)
  {
    if m < n {
      NightStepsMonotone(start, m, n - 1);
    }
  }

  /** The hour steps of a shift starting at `start + 60` are those of `start`, less the first, plus one more. */
  lemma {:induction false} NightStepsShift(start: Minute, n: nat)
    requires start + MinutesPerHour < MinutesPerDay
    ensures NightSteps(start + MinutesPerHour, n) == NightSteps(start, n + 1) - NightSteps(start, 1)
  {
    if n > 0 {
      NightStepsShift(start, n - 1);
      assert start + MinutesPerHour + MinutesPerHour * (n - 1) == start + MinutesPerHour * n;
    }
  }

  /** Over a whole day of hour steps, starting one hour later counts the same night hours. */
  lemma NightDayRotate(start: Minute)
    requires start + MinutesPerHour < MinutesPerDay
    ensures NightSteps(start + MinutesPerHour, HoursPerDay) == NightSteps(start, HoursPerDay)
  {
    NightStepsShift(start, HoursPerDay);
    var last := if IsNightTime(ClockAt(start + MinutesPerHour * HoursPerDay)) then 1 else 0;
    assert NightSteps(start, HoursPerDay + 1) == NightSteps(start, HoursPerDay) + last;
    assert ClockAt(start + MinutesPerHour * HoursPerDay) == ClockAt(start);
    assert NightSteps(start, 1) == last;
  }

  /** Over a whole day of hour steps, only the minutes past the hour of the start matter. */
  lemma {:induction false} NightDayFromMinutes(start: Minute)
    ensures NightSteps(start, HoursPerDay) == NightSteps(start % MinutesPerHour, HoursPerDay)
  {
    if start >= MinutesPerHour {
      var earlier := start - MinutesPerHour;
      NightDayFromMinutes(earlier);
      NightDayRotate(earlier);
      SameMinutePastHour(start);
    }
  }

  lemma SameMinutePastHour(t: int)
    requires t >= MinutesPerHour
    ensures (t - MinutesPerHour) % MinutesPerHour == t % MinutesPerHour
  {
  }

  /** A step taken `k` hours after a start in the first hour of the day is read in clock hour `k`. */
  lemma StepInFirstDay(start: Minute, k: nat)
    requires start < MinutesPerHour && k < HoursPerDay
    ensures ClockAt(start + MinutesPerHour * k) == start + MinutesPerHour * k
    ensures (start + MinutesPerHour * k) / MinutesPerHour == k
  {
  }

  /** A start within the first hour of the day reads the same clock hours as midnight. */
  lemma {:induction false} NightStepsWithinFirstHour(start: Minute, n: nat)
    requires start < MinutesPerHour && n <= HoursPerDay
    ensures NightSteps(start, n) == NightSteps(0, n)
  {
    if n > 0 {
      NightStepsWithinFirstHour(start, n - 1);
      StepInFirstDay(start, n - 1);
      StepInFirstDay(0, n - 1);
    }
  }

  /** From midnight, the first six steps are night, the next seventeen are not, and the 24th (at 23:00) is. */
  lemma {:induction false} NightStepsFromMidnight(n: nat)
    requires n <= HoursPerDay
    ensures NightSteps(0, n) == if n <= 6 then n else if n <= 23 then 6 else 7
  {
    if n > 0 {
      NightStepsFromMidnight(n - 1);
      StepInFirstDay(0, n - 1);
    }
  }

  /** A shift whose end equals its start lasts 24 hours and always counts exactly 7 night hours. */
  lemma FullDayNightHours(start: Minute)
    ensures NightHoursOf(start, start) == 7
  {
    NightDayFromMinutes(start);
    NightStepsWithinFirstHour(start % MinutesPerHour, HoursPerDay);
    NightStepsFromMidnight(HoursPerDay);
  }

  /** A shift that starts at or after 06:00 and ends by 23:00 the same day counts no night hour. */
  lemma DaytimeShiftNoNight(start: Minute, end: Minute)
    requires NightEnd <= start < end <= NightStart
    ensures NightHoursOf(start, end) == 0
  {
    DaytimeSteps(start, end - start, StepCount(end - start));
  }

  lemma {:induction false} DaytimeSteps(start: Minute, len: nat, n: nat)
    requires NightEnd <= start && start + len <= NightStart
    requires n <= StepCount(len)
    ensures NightSteps(start, n) == 0
  {
    if n > 0 {
      DaytimeSteps(start, len, n - 1);
      StepBound(len, n - 1);
      var t := start + MinutesPerHour * (n - 1);
      assert NightEnd <= t < NightStart;
      assert ClockAt(t) == t;
    }
  }

  /** A half-hour shift from 23:00 counts one night hour: the step at 23:00 is counted whole. */
  lemma HalfHourAtElevenCountsOne()
    ensures NightHoursOf(23 * 60, 23 * 60 + 30) == 1
  {
  }

  /** A shift from 22:30 to 23:30 counts no night hour: its only step is read at 22:30. */
  lemma HalfPastTenCountsNone()
    ensures NightHoursOf(22 * 60 + 30, 23 * 60 + 30) == 0
  {
  }

  /** A shift from 22:00 to 02:00 steps at 22, 23, 0 and 1 o'clock and counts three night hours. */
  lemma TenToTwoCountsThree()
    ensures ShiftLength(22 * 60, 2 * 60) == 4 * 60
    ensures NightHoursOf(22 * 60, 2 * 60) == 3
  {
  }
}
