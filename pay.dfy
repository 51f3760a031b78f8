/**
 * The wage breakdown of one shift: base pay, the Sunday, Saturday, night
 * and overtime premiums, and the gross pay, computed from the day of the
 * week, the hourly rate and the shift's start and end times.
 *
 * Amounts are exact real numbers (currency units, CHF); no rounding is
 * applied.
 */
module Pay {
  import opened Wrappers
  import opened Clock
  import opened Shift
  import opened Calendar

  /** Premium per hour of the whole shift when the shift's date is a Sunday. */
  const SundayPremiumPerHour: real := 4.80
  /** Premium per hour of the whole shift when the shift's date is a Saturday. */
  const SaturdayPremiumPerHour: real := 2.40
  /** Premium per counted night hour, whatever the hourly rate. */
  const NightPremiumPerHour: real := 8.40
  /** Hours of a shift beyond this many are overtime. */
  const OvertimeThreshold: real := 9.5
  /** The overtime threshold in minutes: 9.5 hours. */
  const OvertimeThresholdMinutes: int := 570
  /** Share of the hourly rate paid as premium per overtime hour. */
  const OvertimeShare: real := 0.25

  /** The lines of the wage breakdown of one shift. */
  datatype Breakdown = Breakdown(
    day: Weekday,
    totalHours: real,        // length of the shift in hours
    nightHours: nat,         // hour steps read in the night window
    overtimeHours: real,     // hours beyond 9.5
    sundayPremium: real,
    saturdayPremium: real,
    nightPremium: real,
    overtimePremium: real,
    basePay: real,
    grossPay: real)

  /**
   * Overtime hours of a shift of `total` hours: what lies beyond the
   * 9.5-hour threshold, and nothing when the shift is no longer than that.
   */
  function OvertimeHours(total: real): (overtime: real)
    ensures overtime >= 0.0
    ensures overtime == 0.0 <==> total <= OvertimeThreshold
    ensures overtime > 0.0 ==> total == OvertimeThreshold + overtime
    ensures total > 0.0 ==> overtime < total
  {
    if total - OvertimeThreshold > 0.0 then total - OvertimeThreshold else 0.0
  }

  /** The weekday premium paid per hour of the whole shift on `day`. */
  function DayPremiumPerHour(day: Weekday): (p: real)
    ensures p >= 0.0
    ensures p != 0.0 <==> day == Saturday || day == Sunday
    ensures day == Sunday ==> p == SundayPremiumPerHour
    ensures day == Saturday ==> p == SaturdayPremiumPerHour
  {
    match day
    case Sunday => SundayPremiumPerHour
    case Saturday => SaturdayPremiumPerHour
    case _ => 0.0
  }

  /**
   * The straight-line part of the computation: overtime, base pay, the four
   * premiums and the gross pay, from the shift's length in hours and its
   * night-hour count.
   */
  function Assemble(day: Weekday, rate: real, totalHours: real, nightHours: nat): (b: Breakdown)
    ensures b.day == day && b.totalHours == totalHours && b.nightHours == nightHours
    ensures b.overtimeHours == OvertimeHours(totalHours)
    ensures b.basePay == totalHours * rate
    ensures b.overtimePremium == OvertimeShare * rate * OvertimeHours(totalHours)
    ensures b.nightPremium == NightPremiumPerHour * nightHours as real
  {
    var overtime := OvertimeHours(totalHours);
    var basePay := totalHours * rate;
    var dayPremium := DayPremiumPerHour(day) * totalHours;
    var sunday := if day == Sunday then dayPremium else 0.0;
    var saturday := if day == Saturday then dayPremium else 0.0;
    var night := nightHours as real * NightPremiumPerHour;
    var overtimePremium := overtime * rate * OvertimeShare;
    Breakdown(day, totalHours, nightHours, overtime, sunday, saturday, night, overtimePremium,
              basePay, basePay + sunday + saturday + night + overtimePremium)
  }

  /** The wage breakdown of a shift from `start` to `end` on `day`, paid `rate` per hour. */
  function WageOf(day: Weekday, rate: real, start: Minute, end: Minute): (b: Breakdown)
    ensures b.day == day
    ensures 0.0 < b.totalHours <= 24.0 && b.totalHours * 60.0 == ShiftLength(start, end) as real
    ensures b.nightHours == |NightStepSet(start, StepCount(ShiftLength(start, end)))| <= HoursPerDay
    ensures b.overtimeHours == 0.0 <==> ShiftLength(start, end) <= OvertimeThresholdMinutes
  {
    Assemble(day, rate, TotalHours(start, end), NightHoursOf(start, end))
  }

  /**
   * Computes the wage breakdown of a shift worked on `date`, whose start and
   * end are given as `HH:MM` text. Text that is not a time is rejected.
   */
  method ComputeWage(date: Date, rate: real, startText: string, endText: string) returns (r: Option<Breakdown>)
    requires IsValidDate(date)
    ensures r.None? <==> ParseTime(startText).None? || ParseTime(endText).None?
    ensures r.Some? ==> r.value == WageOf(WeekdayOf(date), rate, ParseTime(startText).value, ParseTime(endText).value)
  {
    var start := ParseTime(startText);
    var end := ParseTime(endText);
    if start.None? || end.None? {
      return None;
    }
    var totalHours := TotalHours(start.value, end.value);
    var nightHours := CountNightHours(start.value, end.value);
    var day := WeekdayOf(date);
    return Some(Assemble(day, rate, totalHours, nightHours));
  }

  /**
   * Gross pay in closed form: the rate paid on every hour plus a quarter of
   * it on every overtime hour, the weekday premium on every hour, and the
   * night premium on every counted night hour.
   */
  function GrossFormula(rate: real, dayPremium: real, hours: real, overtime: real, night: real): real
  {
    rate * (hours + OvertimeShare * overtime) + dayPremium * hours + NightPremiumPerHour * night
  }

  /** Gross pay is the sum of base pay and the four premiums, and agrees with the closed form. */
  lemma GrossPayClosedForm(day: Weekday, rate: real, totalHours: real, nightHours: nat)
    ensures var b := Assemble(day, rate, totalHours, nightHours);
      && b.grossPay == b.basePay + b.sundayPremium + b.saturdayPremium + b.nightPremium + b.overtimePremium
      && b.grossPay == GrossFormula(rate, DayPremiumPerHour(day), totalHours, b.overtimeHours, nightHours as real)
  {
    var b := Assemble(day, rate, totalHours, nightHours);
    var o := b.overtimeHours;
    assert b.overtimePremium == rate * (OvertimeShare * o);
    assert rate * (totalHours + OvertimeShare * o) == rate * totalHours + rate * (OvertimeShare * o);
    assert b.sundayPremium + b.saturdayPremium == DayPremiumPerHour(day) * totalHours;
  }

  /**
   * At most one weekday premium applies: the Sunday premium is paid exactly
   * on Sundays, the Saturday premium exactly on Saturdays, each on every
   * hour of the shift.
   */
  lemma WeekdayPremiums(day: Weekday, rate: real, start: Minute, end: Minute)
    ensures var b := WageOf(day, rate, start, end);
      && (b.sundayPremium != 0.0 <==> day == Sunday)
      && (b.saturdayPremium != 0.0 <==> day == Saturday)
      && (b.sundayPremium == 0.0 || b.saturdayPremium == 0.0)
      && (day == Sunday ==> b.sundayPremium == SundayPremiumPerHour * b.totalHours)
      && (day == Saturday ==> b.saturdayPremium == SaturdayPremiumPerHour * b.totalHours)
  {
    AssembleWeekdayPremiums(day, rate, TotalHours(start, end), NightHoursOf(start, end));
  }

  lemma AssembleWeekdayPremiums(day: Weekday, rate: real, totalHours: real, nightHours: nat)
    requires totalHours > 0.0
    ensures var b := Assemble(day, rate, totalHours, nightHours);
      && (b.sundayPremium != 0.0 <==> day == Sunday)
      && (b.saturdayPremium != 0.0 <==> day == Saturday)
      && (b.sundayPremium == 0.0 || b.saturdayPremium == 0.0)
      && (day == Sunday ==> b.sundayPremium == SundayPremiumPerHour * b.totalHours)
      && (day == Saturday ==> b.saturdayPremium == SaturdayPremiumPerHour * b.totalHours)
  {
    match day
    case Sunday => assert DayPremiumPerHour(day) == SundayPremiumPerHour;
    case Saturday => assert DayPremiumPerHour(day) == SaturdayPremiumPerHour;
    case _ =>
  }

  /**
   * The night premium depends on the night-hour count alone: neither the
   * rate nor the day changes it.
   */
  lemma NightPremiumIgnoresRateAndDay(day1: Weekday, rate1: real, day2: Weekday, rate2: real, start: Minute, end: Minute)
    ensures WageOf(day1, rate1, start, end).nightPremium == WageOf(day2, rate2, start, end).nightPremium
    ensures WageOf(day1, rate1, start, end).nightPremium == NightPremiumPerHour * NightHoursOf(start, end) as real
  {
  }

  /** Overtime is what a shift has beyond 9.5 hours (570 minutes), and is always less than the shift. */
  lemma OvertimeOfShift(day: Weekday, rate: real, start: Minute, end: Minute)
    ensures var b := WageOf(day, rate, start, end);
      && 0.0 <= b.overtimeHours < b.totalHours
      && (b.overtimeHours == 0.0 <==> ShiftLength(start, end) <= OvertimeThresholdMinutes)
      && (b.overtimeHours > 0.0 ==> b.overtimeHours * 60.0 == (ShiftLength(start, end) - OvertimeThresholdMinutes) as real)
  {
    assert OvertimeThresholdMinutes as real == OvertimeThreshold * 60.0;
  }

  /**
   * The pay lines of a shift: base pay is the rate on every hour, the
   * overtime premium a quarter of the rate on every overtime hour, and the
   * night premium 8.40 on every counted night hour.
   */
  lemma PayLinesOfShift(day: Weekday, rate: real, start: Minute, end: Minute)
    ensures var b := WageOf(day, rate, start, end);
      && b.basePay == TotalHours(start, end) * rate
      && b.overtimePremium == OvertimeShare * rate * OvertimeHours(TotalHours(start, end))
      && b.nightPremium == NightPremiumPerHour * NightHoursOf(start, end) as real
  {
  }

  /** With a non-negative rate, every line of the breakdown is non-negative and gross pay covers base pay. */
  lemma PayIsNonNegative(day: Weekday, rate: real, start: Minute, end: Minute)
    requires rate >= 0.0
    ensures var b := WageOf(day, rate, start, end);
      && b.basePay >= 0.0 && b.sundayPremium >= 0.0 && b.saturdayPremium >= 0.0
      && b.nightPremium >= 0.0 && b.overtimePremium >= 0.0
      && b.grossPay >= b.basePay >= 0.0
  {
    AssembleIsNonNegative(day, rate, TotalHours(start, end), NightHoursOf(start, end));
  }

  lemma AssembleIsNonNegative(day: Weekday, rate: real, totalHours: real, nightHours: nat)
    requires rate >= 0.0 && totalHours >= 0.0
    ensures var b := Assemble(day, rate, totalHours, nightHours);
      && b.basePay >= 0.0 && b.sundayPremium >= 0.0 && b.saturdayPremium >= 0.0
      && b.nightPremium >= 0.0 && b.overtimePremium >= 0.0
      && b.grossPay >= b.basePay >= 0.0
  {
    var o := OvertimeHours(totalHours);
    MulMonotone(rate, 0.0, totalHours);
    MulMonotone(rate, 0.0, o);
    assert o * rate * OvertimeShare == (rate * o) * OvertimeShare;
  }

  /** With non-negative rates, the closed form grows with hours, overtime and night hours. */
  lemma GrossFormulaMonotone(rate: real, dayPremium: real, hours1: real, overtime1: real, night1: real,
                             hours2: real, overtime2: real, night2: real)
    requires rate >= 0.0 && dayPremium >= 0.0
    requires hours1 <= hours2 && overtime1 <= overtime2 && night1 <= night2
    ensures GrossFormula(rate, dayPremium, hours1, overtime1, night1) <= GrossFormula(rate, dayPremium, hours2, overtime2, night2)
  {
    MulMonotone(rate, hours1 + OvertimeShare * overtime1, hours2 + OvertimeShare * overtime2);
    MulMonotone(dayPremium, hours1, hours2);
  }

  lemma MulMonotone(k: real, x: real, y: real)
    requires k >= 0.0 && x <= y
    ensures k * x <= k * y
  {
  }

  /**
   * With a non-negative rate, more hours and more night hours on the same
   * day never pay less.
   */
  lemma MoreHoursPayNoLess(day: Weekday, rate: real, hours1: real, night1: nat, hours2: real, night2: nat)
    requires rate >= 0.0 && hours1 <= hours2 && night1 <= night2
    ensures Assemble(day, rate, hours1, night1).grossPay <= Assemble(day, rate, hours2, night2).grossPay
  {
    GrossPayClosedForm(day, rate, hours1, night1);
    GrossPayClosedForm(day, rate, hours2, night2);
    var o1, o2 := OvertimeHours(hours1), OvertimeHours(hours2);
    assert o1 <= o2;
    GrossFormulaMonotone(rate, DayPremiumPerHour(day), hours1, o1, night1 as real, hours2, o2, night2 as real);
  }

  /**
   * With a non-negative rate, a longer shift from the same start on the same
   * day never pays less.
   */
  lemma LongerShiftPaysNoLess(day: Weekday, rate: real, start: Minute, end1: Minute, end2: Minute)
    requires rate >= 0.0
    requires ShiftLength(start, end1) <= ShiftLength(start, end2)
    ensures WageOf(day, rate, start, end1).grossPay <= WageOf(day, rate, start, end2).grossPay
  {
    var len1, len2 := ShiftLength(start, end1), ShiftLength(start, end2);
    NightStepsMonotone(start, StepCount(len1), StepCount(len2));
    MoreHoursPayNoLess(day, rate, TotalHours(start, end1), NightHoursOf(start, end1),
                       TotalHours(start, end2), NightHoursOf(start, end2));
  }

  /** Monday 08:00 to 16:00 at 25 per hour: eight plain hours, gross pay 200. */
  lemma PlainWeekdayExample()
    ensures var b := WageOf(Monday, 25.0, 8 * 60, 16 * 60);
      && b.totalHours == 8.0 && b.nightHours == 0 && b.overtimeHours == 0.0
      && b.basePay == 200.0 && b.grossPay == 200.0
  {
    DaytimeShiftNoNight(8 * 60, 16 * 60);
    assert TotalHours(8 * 60, 16 * 60) == 8.0;
  }

  /**
   * Saturday 08:00 to 18:00 at 20 per hour: the Saturday premium and the
   * overtime premium are both paid.
   */
  lemma SaturdayWithOvertimeExample()
    ensures var b := WageOf(Saturday, 20.0, 8 * 60, 18 * 60);
      && b.totalHours == 10.0 && b.overtimeHours == 0.5
      && b.saturdayPremium == 24.0 && b.overtimePremium == 2.5
      && b.grossPay == 226.5
  {
    DaytimeShiftNoNight(8 * 60, 18 * 60);
    assert TotalHours(8 * 60, 18 * 60) == 10.0;
    assert OvertimeHours(10.0) == 0.5;
  }
}
